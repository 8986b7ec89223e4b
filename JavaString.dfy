/** The java.lang.String operations the jdoconfig reader relies on:
    `trim`, the `nullOrBlank` test built on it, and `equalsIgnoreCase`. */
module JavaString {
  import opened Wrappers

  /** `String.trim` treats every char up to U+0020 as white space. */
  predicate IsBlankChar(c: char) {
    c <= ' '
  }

  predicate AllBlank(s: string) {
    forall k :: 0 <= k < |s| ==> IsBlankChar(s[k])
  }

  /** Neither end of `s` is a white-space char. */
  predicate IsTrimmed(s: string) {
    s == [] || (!IsBlankChar(s[0]) && !IsBlankChar(s[|s| - 1]))
  }

  /** Drops the leading white space. */
  function TrimLeading(s: string): string {
    if |s| > 0 && IsBlankChar(s[0]) then TrimLeading(s[1..]) else s
  }

  /** Drops the trailing white space. */
  function TrimTrailing(s: string): string {
    if |s| > 0 && IsBlankChar(s[|s| - 1]) then TrimTrailing(s[..|s| - 1]) else s
  }

  /** The leading trim is a suffix of `s`, only blanks were dropped, and it
      does not start with a blank. */
  lemma {:induction false} TrimLeadingSpec(s: string)
    ensures |TrimLeading(s)| <= |s| && TrimLeading(s) == s[|s| - |TrimLeading(s)|..]
    ensures AllBlank(s[..|s| - |TrimLeading(s)|])
    ensures TrimLeading(s) == [] || !IsBlankChar(TrimLeading(s)[0])
  {
    if |s| > 0 && IsBlankChar(s[0]) {
      TrimLeadingSpec(s[1..]);
      assert s[..|s| - |TrimLeading(s)|] == [s[0]] + s[1..][..|s| - 1 - |TrimLeading(s)|];
    }
  }

  /** The trailing trim is a prefix of `s`, only blanks were dropped, and it
      does not end with a blank. */
  lemma {:induction false} TrimTrailingSpec(s: string)
    ensures |TrimTrailing(s)| <= |s| && TrimTrailing(s) == s[..|TrimTrailing(s)|]
    ensures AllBlank(s[|TrimTrailing(s)|..])
    ensures TrimTrailing(s) == [] || !IsBlankChar(TrimTrailing(s)[|TrimTrailing(s)| - 1])
  {
    if |s| > 0 && IsBlankChar(s[|s| - 1]) {
      var init := s[..|s| - 1];
      TrimTrailingSpec(init);
      assert s[|TrimTrailing(s)|..] == init[|TrimTrailing(init)|..] + [s[|s| - 1]];
    }
  }

  /** `String.trim`: the result neither starts nor ends with a blank. */
  function Trim(s: string): (r: string)
    ensures IsTrimmed(r)
  {
    var l := TrimLeading(s);
    TrimLeadingSpec(s);
    TrimTrailingSpec(l);
    TrimTrailing(l)
  }

  /** `String.trim` drops exactly the leading and the trailing blanks: the
      result is a slice of `s` with only blanks before and after it. */
  lemma TrimSpec(s: string)
    ensures exists i :: 0 <= i <= i + |Trim(s)| <= |s| && Trim(s) == s[i..i + |Trim(s)|]
                        && AllBlank(s[..i]) && AllBlank(s[i + |Trim(s)|..])
  {
    var l := TrimLeading(s);
    TrimLeadingSpec(s);
    TrimTrailingSpec(l);
    var i := |s| - |l|;
    var r := Trim(s);
    assert r == s[i..i + |r|];
    assert s[i + |r|..] == l[|r|..];
  }

  /** Trimming only removes white space: `s` trims to nothing exactly when
      it consists of blanks. */
  lemma TrimEmptyIffAllBlank(s: string)
    ensures Trim(s) == [] <==> AllBlank(s)
  {
    var l := TrimLeading(s);
    TrimLeadingSpec(s);
    TrimTrailingSpec(l);
    assert s == s[..|s| - |l|] + l;
    if l != [] {
      assert l[0] == s[|s| - |l|];
    }
  }

  /** A string that neither starts nor ends with white space is its own
      trim. */
  lemma TrimOfTrimmed(s: string)
    requires IsTrimmed(s)
    ensures Trim(s) == s
  {
    assert TrimLeading(s) == s;
    assert TrimTrailing(s) == s;
  }

  /** Trimming twice is trimming once. */
  lemma TrimIdempotent(s: string)
    ensures Trim(Trim(s)) == Trim(s)
  {
    TrimOfTrimmed(Trim(s));
  }

  /** JDOHelper.nullOrBlank: true exactly for null and for strings made of
      white space only. */
  function NullOrBlank(s: Option<string>): bool {
    s.None? || Trim(s.value) == ""
  }

  /** A string is null or blank exactly when it is null or made of white
      space only. */
  lemma NullOrBlankSpec(s: Option<string>)
    ensures NullOrBlank(s) <==> (s.None? || AllBlank(s.value))
  {
    if s.Some? {
      TrimEmptyIffAllBlank(s.value);
    }
  }

  /** Upper-casing of the ASCII letters. */
  function AsciiUpper(c: char): char {
    if 'a' <= c <= 'z' then (c as int - 32) as char else c
  }

  /** `String.equalsIgnoreCase`, restricted to ASCII case folding. */
  predicate EqualsIgnoreCase(a: string, b: string) {
    |a| == |b| && forall k :: 0 <= k < |a| ==> AsciiUpper(a[k]) == AsciiUpper(b[k])
  }
}
