/** The text clean-up of the contact endpoint: `sanitizeInput` removes every
    angle bracket, trims surrounding white space and keeps at most
    `MaxLength` characters. White space is the ECMAScript set that both
    `String.prototype.trim` and the regular-expression class `\s` use. */
module ContactText {

  /** The `.slice(0, 5000)` bound of `sanitizeInput`. */
  const MaxLength: nat := 5000

  /** ECMAScript WhiteSpace and LineTerminator code points. */
  predicate IsWhitespace(c: char) {
    || c == '\t' || c == '\n' || c == '\U{000B}' || c == '\U{000C}' || c == '\r'
    || c == ' ' || c == '\U{00A0}' || c == '\U{1680}'
    || ('\U{2000}' <= c <= '\U{200A}')
    || c == '\U{2028}' || c == '\U{2029}' || c == '\U{202F}' || c == '\U{205F}'
    || c == '\U{3000}' || c == '\U{FEFF}'
  }

  predicate IsBracket(c: char) { c == '<' || c == '>' }

  predicate BracketFree(s: string) {
    forall i :: 0 <= i < |s| ==> !IsBracket(s[i])
  }

  predicate AllWhitespace(s: string) {
    forall i :: 0 <= i < |s| ==> IsWhitespace(s[i])
  }

  /** `input.replace(/[<>]/g, "")`. */
  function StripBrackets(s: string): (r: string)
    ensures BracketFree(r)
    ensures |r| <= |s|
  {
    if s == [] then []
    else (if IsBracket(s[0]) then [] else [s[0]]) + StripBrackets(s[1..])
  }

  /** Number of white-space characters at the front of `s`. */
  function LeadingSpace(s: string): (n: nat)
    ensures n <= |s|
    ensures AllWhitespace(s[..n])
    ensures n < |s| ==> !IsWhitespace(s[n])
  {
    if s != [] && IsWhitespace(s[0]) then
      var m := LeadingSpace(s[1..]);
      assert s[1..][..m] == s[1..m + 1];
      1 + m
    else 0
  }

  /** Index where the white-space run at the back of `s` starts. */
  function TrailingStart(s: string): (m: nat)
    ensures m <= |s|
    ensures AllWhitespace(s[m..])
    ensures 0 < m ==> !IsWhitespace(s[m - 1])
  {
    if s != [] && IsWhitespace(s[|s| - 1]) then
      var m := TrailingStart(s[..|s| - 1]);
      assert s[m..] == s[..|s| - 1][m..] + [s[|s| - 1]];
      m
    else |s|
  }

  /** Start of the trimmed slice: the first non-space character. */
  function TrimFrom(s: string): (i: nat)
    ensures i <= |s|
  {
    LeadingSpace(s)
  }

  /** End (exclusive) of the trimmed slice: one past the last non-space
      character, or `TrimFrom(s)` when `s` is all white space. */
  function TrimTo(s: string): (j: nat)
    ensures TrimFrom(s) <= j <= |s|
    ensures AllWhitespace(s[j..])
    ensures TrimFrom(s) < j ==> !IsWhitespace(s[j - 1])
    ensures TrimFrom(s) == j ==> j == |s|
  {
    var i := LeadingSpace(s);
    var t := s[i..];
    var m := TrailingStart(t);
    assert t[m..] == s[i + m..];
    assert i < |s| ==> m > 0 by {
      if i < |s| { assert !IsWhitespace(t[0]); }
    }
    i + m
  }

  /** `String.prototype.trim`: the longest slice of `s` that neither starts
      nor ends with white space; everything cut away is white space. */
  function Trim(s: string): (r: string)
    ensures |r| <= |s|
    ensures r == s[TrimFrom(s)..TrimTo(s)]
    ensures AllWhitespace(s[..TrimFrom(s)]) && AllWhitespace(s[TrimTo(s)..])
    ensures r != [] ==> !IsWhitespace(r[0]) && !IsWhitespace(r[|r| - 1])
  {
    s[TrimFrom(s)..TrimTo(s)]
  }

  /** `.slice(0, n)`. */
  function Truncate(s: string, n: nat): (r: string)
    ensures |r| == if |s| <= n then |s| else n
    ensures r == s[..|r|]
  {
    if |s| <= n then s else s[..n]
  }

  /** `sanitizeInput`: the bracket-free text from its first non-space
      character, cut at `MaxLength` characters and at its last non-space
      character, whichever comes first. */
  function Sanitize(s: string): (r: string)
    ensures BracketFree(r)
    ensures |r| <= MaxLength
    ensures r != [] ==> !IsWhitespace(r[0])
    ensures var t := StripBrackets(s);
            TrimFrom(t) + |r| <= |t| && r == t[TrimFrom(t)..TrimFrom(t) + |r|]
    ensures |Trim(StripBrackets(s))| <= MaxLength ==> r == Trim(StripBrackets(s))
    ensures |Trim(StripBrackets(s))| > MaxLength ==> |r| == MaxLength
  {
    var t := StripBrackets(s);
    TrimPrefix(t, MaxLength);
    Truncate(Trim(t), MaxLength)
  }

  /** A prefix of the trimmed text is a slice of the text starting at its
      first non-space character. */
  lemma TrimPrefix(t: string, n: nat)
    ensures var r := Truncate(Trim(t), n);
            && TrimFrom(t) + |r| <= |t| && r == t[TrimFrom(t)..TrimFrom(t) + |r|]
            && (r != [] ==> !IsWhitespace(r[0]))
            && (BracketFree(t) ==> BracketFree(r))
  {
    var u := Trim(t);
    var r := Truncate(u, n);
    assert r == u[..|r|];
    assert forall k :: 0 <= k < |r| ==> r[k] == t[TrimFrom(t) + k];
  }

  /** Removing brackets works character by character, so it distributes
      over concatenation. */
  lemma {:induction false} StripBracketsAppend(a: string, b: string)
    ensures StripBrackets(a + b) == StripBrackets(a) + StripBrackets(b)
  {
    if a == [] {
      assert a + b == b;
    } else {
      assert (a + b)[1..] == a[1..] + b;
      StripBracketsAppend(a[1..], b);
    }
  }

  /** Removing brackets changes exactly the strings that hold one. */
  lemma {:induction false} StripBracketsIdentity(s: string)
    ensures StripBrackets(s) == s <==> BracketFree(s)
  {
    if s != [] {
      StripBracketsIdentity(s[1..]);
      if BracketFree(s) {
        assert BracketFree(s[1..]);
      }
    }
  }

  /** Every character other than a bracket survives, as often as it occurs. */
  lemma {:induction false} StripBracketsKeepsOthers(s: string, c: char)
    ensures multiset(StripBrackets(s))[c] == if IsBracket(c) then 0 else multiset(s)[c]
  {
    if s != [] {
      StripBracketsKeepsOthers(s[1..], c);
      assert s == [s[0]] + s[1..];
      assert multiset(s) == multiset([s[0]]) + multiset(s[1..]);
    }
  }

  /** Trimming leaves a string alone when it neither starts nor ends with
      white space. */
  lemma TrimIdentity(s: string)
    requires s != [] ==> !IsWhitespace(s[0]) && !IsWhitespace(s[|s| - 1])
    ensures Trim(s) == s
  {
    assert LeadingSpace(s) == 0;
    assert TrailingStart(s[0..]) == |s| by { assert s[0..] == s; }
  }

  /** Wrapping text in a tag's brackets does not survive sanitising: the
      inner text comes back as it was, so `sanitizeInput("<script>")` is
      `"script"`. */
  lemma SanitizeUnwrapsTag(inner: string)
    requires BracketFree(inner) && |inner| <= MaxLength
    requires inner != [] ==> !IsWhitespace(inner[0]) && !IsWhitespace(inner[|inner| - 1])
    ensures Sanitize("<" + inner + ">") == inner
  {
    StripTag(inner);
    TrimIdentity(inner);
  }

  lemma StripTag(inner: string)
    requires BracketFree(inner)
    ensures StripBrackets("<" + inner + ">") == inner
  {
    var close := ">";
    var x := inner + close;
    var s := "<" + inner + ">";
    assert s == ['<'] + x;
    assert s[0] == '<' && s[1..] == x;
    assert StripBrackets(s) == StripBrackets(x);
    StripBracketsAppend(inner, close);
    assert StripBrackets(close) == [] by { assert close[0] == '>' && close[1..] == []; }
    StripBracketsIdentity(inner);
  }

  /** The strings `sanitizeInput` returns unchanged are exactly those with no
      bracket, no surrounding white space and at most `MaxLength`
      characters. */
  lemma SanitizeFixedPoint(s: string)
    ensures Sanitize(s) == s <==>
            && BracketFree(s)
            && |s| <= MaxLength
            && (s != [] ==> !IsWhitespace(s[0]) && !IsWhitespace(s[|s| - 1]))
  {
    var t := StripBrackets(s);
    var u := Trim(t);
    if BracketFree(s) && |s| <= MaxLength && (s != [] ==> !IsWhitespace(s[0]) && !IsWhitespace(s[|s| - 1])) {
      StripBracketsIdentity(s);
      TrimIdentity(s);
    }
    if Sanitize(s) == s {
      assert |u| <= |s|;
      assert Truncate(u, MaxLength) == s;
    }
  }
}
