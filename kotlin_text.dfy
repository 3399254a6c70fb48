/**
 * The Kotlin standard-library text functions the screens rely on:
 * `Char.isWhitespace`, `CharSequence.isBlank` and `String.trim`.
 */
module KotlinText {

  /** `Char.isWhitespace` on the JVM: a Java whitespace character or a Unicode space separator. */
  predicate IsWhitespace(c: char)
  {
    || c == '\t' || c == '\n' || c == '\U{000B}' || c == '\U{000C}' || c == '\r'
    || ('\U{001C}' <= c <= '\U{001F}')
    || c == ' ' || c == '\U{00A0}' || c == '\U{1680}'
    || ('\U{2000}' <= c <= '\U{200A}')
    || c == '\U{2028}' || c == '\U{2029}' || c == '\U{202F}' || c == '\U{205F}' || c == '\U{3000}'
  }

  /** `isBlank()`: empty, or whitespace only, so that nothing is left once the leading whitespace is dropped. */
  predicate IsBlank(s: string): (r: bool)
    ensures r <==> TrimStart(s) == []
  {
    TrimStartFacts(s);
    forall i :: 0 <= i < |s| ==> IsWhitespace(s[i])
  }

  /** Drops the leading whitespace (see TrimStartFacts). */
  function TrimStart(s: string): string
  {
    if s != [] && IsWhitespace(s[0]) then TrimStart(s[1..]) else s
  }

  /** Drops the trailing whitespace (see TrimEndFacts). */
  function TrimEnd(s: string): string
  {
    if s != [] && IsWhitespace(s[|s| - 1]) then TrimEnd(s[..|s| - 1]) else s
  }

  /** TrimStart keeps the suffix of `s` that starts at its first non-whitespace character. */
  lemma {:induction false} TrimStartFacts(s: string)
    ensures var r := TrimStart(s);
      && |r| <= |s| && r == s[|s| - |r|..]
      && (forall i :: 0 <= i < |s| - |r| ==> IsWhitespace(s[i]))
      && (r != [] ==> !IsWhitespace(r[0]))
  {
    if s != [] && IsWhitespace(s[0]) {
      var t := s[1..];
      TrimStartFacts(t);
      var r := TrimStart(t);
      assert TrimStart(s) == r;
      assert s[|s| - |r|..] == t[|t| - |r|..];
      forall i | 0 <= i < |s| - |r|
        ensures IsWhitespace(s[i])
      {
        if i > 0 { assert s[i] == t[i - 1]; }
      }
    }
  }

  /** TrimEnd keeps the prefix of `s` that ends at its last non-whitespace character. */
  lemma {:induction false} TrimEndFacts(s: string)
    ensures var r := TrimEnd(s);
      && |r| <= |s| && r == s[..|r|]
      && (forall i :: |r| <= i < |s| ==> IsWhitespace(s[i]))
      && (r != [] ==> !IsWhitespace(r[|r| - 1]))
  {
    if s != [] && IsWhitespace(s[|s| - 1]) {
      var t := s[..|s| - 1];
      TrimEndFacts(t);
      var r := TrimEnd(t);
      assert TrimEnd(s) == r;
      assert s[..|r|] == t[..|r|];
      forall i | |r| <= i < |s|
        ensures IsWhitespace(s[i])
      {
        if i < |t| { assert s[i] == t[i]; }
      }
    }
  }

  /**
   * `String.trim()`: whitespace removed at both ends (see TrimIsSlice).
   * The result is empty exactly when `s` is blank.
   */
  function Trim(s: string): (r: string)
    ensures r != [] ==> !IsWhitespace(r[0]) && !IsWhitespace(r[|r| - 1])
    ensures r == [] <==> IsBlank(s)
  {
    TrimBlank(s);
    TrimEnd(TrimStart(s))
  }

  /** The number of whitespace characters that trim removes from the front of `s`. */
  function LeadingBlanks(s: string): nat
  {
    TrimStartFacts(s);
    |s| - |TrimStart(s)|
  }

  /** Trim removes a blank prefix and a blank suffix and keeps what lies between. */
  lemma TrimIsSlice(s: string)
    ensures var i := LeadingBlanks(s); var r := Trim(s);
      && i + |r| <= |s| && r == s[i..i + |r|]
      && IsBlank(s[..i]) && IsBlank(s[i + |r|..])
  {
    TrimSlice(s);
    TrimLeadingBlank(s);
    TrimTrailingBlank(s);
  }

  lemma TrimSlice(s: string)
    ensures var i := LeadingBlanks(s); var r := Trim(s);
      i + |r| <= |s| && r == s[i..i + |r|]
  {
    TrimStartFacts(s);
    TrimEndFacts(TrimStart(s));
  }

  lemma TrimLeadingBlank(s: string)
    ensures LeadingBlanks(s) <= |s| && IsBlank(s[..LeadingBlanks(s)])
  {
    TrimStartFacts(s);
  }

  lemma TrimTrailingBlank(s: string)
    ensures var i := LeadingBlanks(s); var r := Trim(s);
      i + |r| <= |s| && IsBlank(s[i + |r|..])
  {
    var t := TrimStart(s);
    var r := TrimEnd(t);
    var i := |s| - |t|;
    TrimStartFacts(s);
    TrimEndFacts(t);
    assert s[i + |r|..] == t[|r|..];
  }

  lemma TrimBlank(s: string)
    ensures var r := TrimEnd(TrimStart(s));
      && (r == [] <==> IsBlank(s))
      && (r != [] ==> !IsWhitespace(r[0]) && !IsWhitespace(r[|r| - 1]))
  {
    var t := TrimStart(s);
    var r := TrimEnd(t);
    var i := |s| - |t|;
    TrimStartFacts(s);
    TrimEndFacts(t);
    if r == [] {
      assert t == [];
    } else {
      assert r[0] == t[0];
      assert !IsWhitespace(s[i]);
    }
  }
}
