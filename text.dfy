/** The string operations the request handlers rely on: the slug pattern
    `/^[\w\-]+$/i`, JavaScript's `String.prototype.trim`, `toLowerCase` and
    `startsWith`. */
module Text {

  predicate IsUpper(c: char) { 'A' <= c <= 'Z' }

  predicate IsLower(c: char) { 'a' <= c <= 'z' }

  predicate IsDigit(c: char) { '0' <= c <= '9' }

  /** A character of the class `[\w\-]`. Without the `u` flag, `\w` is
      `[A-Za-z0-9_]` and the `i` flag adds no character to it. */
  predicate IsSlugChar(c: char) {
    IsUpper(c) || IsLower(c) || IsDigit(c) || c == '_' || c == '-'
  }

  predicate AllSlugChars(s: string) {
    forall i :: 0 <= i < |s| ==> IsSlugChar(s[i])
  }

  predicate HasNoUpper(s: string) {
    forall i :: 0 <= i < |s| ==> !IsUpper(s[i])
  }

  /** `[\w\-]*` anchored at the end of the input. */
  predicate MatchesSlugStar(s: string) {
    s == [] || (IsSlugChar(s[0]) && MatchesSlugStar(s[1..]))
  }

  lemma {:induction false} SlugStarChars(s: string)
    ensures MatchesSlugStar(s) <==> AllSlugChars(s)
  {
    if s != [] {
      SlugStarChars(s[1..]);
      assert forall i :: 1 <= i < |s| ==> s[i] == s[1..][i - 1];
    }
  }

  /** The regular expression `/^[\w\-]+$/i` tested against the whole of `s`:
      one class character, then the starred class up to the end. It holds
      exactly of the non-empty strings made of ASCII letters, digits, `_`
      and `-`. */
  predicate MatchesSlugPattern(s: string): (m: bool)
    ensures m <==> |s| > 0 && AllSlugChars(s)
  {
    if s == [] then false
    else
      SlugStarChars(s[1..]);
      assert forall i :: 1 <= i < |s| ==> s[i] == s[1..][i - 1];
      IsSlugChar(s[0]) && MatchesSlugStar(s[1..])
  }

  /** The characters `String.prototype.trim` removes: ECMAScript WhiteSpace
      (tab, vertical tab, form feed, space, no-break space, byte order mark
      and the Zs category) and LineTerminator (LF, CR, U+2028, U+2029). */
  predicate IsJsWhitespace(c: char) {
    var n := c as int;
    (0x09 <= n <= 0x0D) || n == 0x20 || n == 0xA0 || n == 0x1680 || (0x2000 <= n <= 0x200A)
    || n == 0x2028 || n == 0x2029 || n == 0x202F || n == 0x205F || n == 0x3000 || n == 0xFEFF
  }

  /** No whitespace character is a slug character or an upper-case letter. */
  lemma WhitespaceIsNotSlugChar(c: char)
    ensures IsJsWhitespace(c) ==> !IsSlugChar(c) && !IsUpper(c) && !IsLower(c)
  {
  }

  /** `s` without its leading whitespace. */
  function TrimStart(s: string): (r: string)
    ensures |r| <= |s|
  {
    if s != [] && IsJsWhitespace(s[0]) then TrimStart(s[1..]) else s
  }

  /** `s` without its trailing whitespace. */
  function TrimEnd(s: string): (r: string)
    ensures |r| <= |s|
  {
    if s != [] && IsJsWhitespace(s[|s| - 1]) then TrimEnd(s[..|s| - 1]) else s
  }

  /** `String.prototype.trim`, which yup's `.trim()` applies before testing. */
  function Trim(s: string): (r: string)
    ensures |r| <= |s|
    ensures r == [] || (!IsJsWhitespace(r[0]) && !IsJsWhitespace(r[|r| - 1]))
  {
    TrimStartWhitespace(s);
    TrimEndWhitespace(TrimStart(s));
    assert TrimEnd(TrimStart(s)) != [] ==> TrimEnd(TrimStart(s))[0] == TrimStart(s)[0];
    TrimEnd(TrimStart(s))
  }

  /** TrimStart drops the longest prefix made of whitespace only. */
  lemma {:induction false} TrimStartWhitespace(s: string)
    ensures TrimStart(s) == s[|s| - |TrimStart(s)|..]
    ensures forall i :: 0 <= i < |s| - |TrimStart(s)| ==> IsJsWhitespace(s[i])
    ensures TrimStart(s) == [] || !IsJsWhitespace(TrimStart(s)[0])
  {
    if s != [] && IsJsWhitespace(s[0]) {
      TrimStartWhitespace(s[1..]);
      assert forall i :: 1 <= i < |s| ==> s[1..][i - 1] == s[i];
    }
  }

  /** TrimEnd drops the longest suffix made of whitespace only. */
  lemma {:induction false} TrimEndWhitespace(s: string)
    ensures TrimEnd(s) == s[..|TrimEnd(s)|]
    ensures forall i :: |TrimEnd(s)| <= i < |s| ==> IsJsWhitespace(s[i])
    ensures TrimEnd(s) == [] || !IsJsWhitespace(TrimEnd(s)[|TrimEnd(s)| - 1])
  {
    if s != [] && IsJsWhitespace(s[|s| - 1]) {
      TrimEndWhitespace(s[..|s| - 1]);
      assert forall i :: 0 <= i < |s| - 1 ==> s[..|s| - 1][i] == s[i];
    }
  }

  /** Where the trimmed string starts in `s`. */
  function TrimOffset(s: string): nat
  {
    |s| - |TrimStart(s)|
  }

  /** Trimming removes only whitespace: the trimmed string is a slice of
      `s` that neither starts nor ends with whitespace, and everything
      outside that slice is whitespace. */
  lemma TrimSlice(s: string)
    ensures TrimOffset(s) + |Trim(s)| <= |s|
    ensures Trim(s) == s[TrimOffset(s)..TrimOffset(s) + |Trim(s)|]
    ensures Trim(s) == [] || (!IsJsWhitespace(Trim(s)[0]) && !IsJsWhitespace(Trim(s)[|Trim(s)| - 1]))
    ensures forall i :: 0 <= i < TrimOffset(s) ==> IsJsWhitespace(s[i])
    ensures forall i :: TrimOffset(s) + |Trim(s)| <= i < |s| ==> IsJsWhitespace(s[i])
  {
    TrimSliceEnds(s);
    TrimStartWhitespace(s);
    TrimTrailing(s);
  }

  lemma TrimSliceEnds(s: string)
    ensures TrimOffset(s) + |Trim(s)| <= |s|
    ensures Trim(s) == s[TrimOffset(s)..TrimOffset(s) + |Trim(s)|]
    ensures Trim(s) == [] || (!IsJsWhitespace(Trim(s)[0]) && !IsJsWhitespace(Trim(s)[|Trim(s)| - 1]))
  {
    var t := TrimStart(s);
    var r := Trim(s);
    TrimStartWhitespace(s);
    TrimEndWhitespace(t);
    assert r == t[..|r|];
    if r != [] {
      assert r[0] == t[0];
    }
  }

  lemma TrimTrailing(s: string)
    ensures forall i :: TrimOffset(s) + |Trim(s)| <= i < |s| ==> IsJsWhitespace(s[i])
  {
    var t := TrimStart(s);
    var off := TrimOffset(s);
    TrimStartWhitespace(s);
    TrimEndWhitespace(t);
    forall i | off + |TrimEnd(t)| <= i < |s|
      ensures IsJsWhitespace(s[i])
    {
      assert s[i] == t[i - off];
    }
  }

  /** A string that neither starts nor ends with whitespace is its own trim. */
  lemma TrimUntouched(s: string)
    requires s == [] || (!IsJsWhitespace(s[0]) && !IsJsWhitespace(s[|s| - 1]))
    ensures Trim(s) == s
  {
  }

  /** JavaScript `toLowerCase` on one character, for the ASCII letters. */
  function LowerChar(c: char): (d: char)
    ensures !IsUpper(d)
    ensures IsUpper(c) ==> IsLower(d)
    ensures !IsUpper(c) ==> d == c
  {
    if IsUpper(c) then (c as int + 32) as char else c
  }

  /** `toLowerCase`, letter by letter: each character of the result is the
      lower case of the character at the same place, so none is upper case. */
  function ToLower(s: string): (r: string)
    ensures |r| == |s|
    ensures forall i :: 0 <= i < |s| ==> r[i] == LowerChar(s[i])
    ensures HasNoUpper(r)
  {
    if s == [] then [] else [LowerChar(s[0])] + ToLower(s[1..])
  }

  /** Lower-casing changes exactly the strings that hold an upper-case letter. */
  lemma LowerFixesLowercase(s: string)
    ensures ToLower(s) == s <==> HasNoUpper(s)
  {
    if HasNoUpper(s) {
      assert forall i :: 0 <= i < |s| ==> ToLower(s)[i] == s[i];
    }
  }

  /** Lower-casing a slug gives a slug. */
  lemma LowerKeepsSlugPattern(s: string)
    ensures MatchesSlugPattern(ToLower(s)) <==> MatchesSlugPattern(s)
  {
    forall i | 0 <= i < |s|
      ensures IsSlugChar(ToLower(s)[i]) <==> IsSlugChar(s[i])
    {
    }
  }

  lemma {:induction false} TrimStartLower(s: string)
    ensures TrimStart(ToLower(s)) == ToLower(TrimStart(s))
  {
    if s != [] {
      WhitespaceIsNotSlugChar(s[0]);
      WhitespaceIsNotSlugChar(LowerChar(s[0]));
    }
    if s != [] && IsJsWhitespace(s[0]) {
      assert ToLower(s)[1..] == ToLower(s[1..]);
      TrimStartLower(s[1..]);
    }
  }

  /** Lower-casing a prefix is taking the prefix of the lower-cased string. */
  lemma LowerPrefix(s: string, n: nat)
    requires n <= |s|
    ensures ToLower(s[..n]) == ToLower(s)[..n]
  {
    var a, b := ToLower(s[..n]), ToLower(s)[..n];
    assert |a| == |b|;
    forall i | 0 <= i < n
      ensures a[i] == b[i]
    {
      assert s[..n][i] == s[i];
    }
  }

  lemma {:induction false} TrimEndLower(s: string)
    ensures TrimEnd(ToLower(s)) == ToLower(TrimEnd(s))
  {
    if s != [] {
      var n := |s| - 1;
      var last := s[n];
      WhitespaceIsNotSlugChar(last);
      WhitespaceIsNotSlugChar(LowerChar(last));
      assert ToLower(s)[n] == LowerChar(last);
      assert IsJsWhitespace(ToLower(s)[n]) <==> IsJsWhitespace(last);
      if IsJsWhitespace(last) {
        LowerPrefix(s, n);
        TrimEndLower(s[..n]);
        assert TrimEnd(ToLower(s)) == TrimEnd(ToLower(s)[..n]);
      } else {
        assert TrimEnd(ToLower(s)) == ToLower(s);
      }
    }
  }


  /** Trimming and lower-casing commute: no whitespace character has a case. */
  lemma TrimLower(s: string)
    ensures Trim(ToLower(s)) == ToLower(Trim(s))
  {
    TrimStartLower(s);
    TrimEndLower(TrimStart(s));
  }

  /** `String.prototype.startsWith`. */
  predicate StartsWith(s: string, prefix: string): (b: bool)
    ensures b <==> |prefix| <= |s| && forall i :: 0 <= i < |prefix| ==> s[i] == prefix[i]
  {
    |prefix| <= |s| && s[..|prefix|] == prefix
  }
}
