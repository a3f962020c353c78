/** The contact endpoint's e-mail check, `/^[^\s@]+@[^\s@]+\.[^\s@]+$/`:
    `Matches` is the pattern read literally (three non-empty runs of
    characters other than white space and '@', joined by '@' and '.'),
    `Shaped` is the same set of strings described by what they contain, and
    `CheckEmail` decides it in one left-to-right scan. */
module EmailPattern {
  import opened ContactText

  /** A character the class `[^\s@]` accepts. */
  predicate PlainChar(c: char) { !IsWhitespace(c) && c != '@' }

  predicate Plain(t: string) {
    forall j :: 0 <= j < |t| ==> PlainChar(t[j])
  }

  /** The pattern read literally: `s` is A '@' B '.' C with A, B and C
      non-empty runs of `PlainChar`. (B and C may themselves hold dots.) */
  predicate Matches(s: string) {
    exists i, k :: 0 < i && i + 1 < k && k + 1 < |s| && s[i] == '@' && s[k] == '.'
                   && Plain(s[..i]) && Plain(s[i + 1..k]) && Plain(s[k + 1..])
  }

  predicate NoWhitespace(s: string) {
    forall j :: 0 <= j < |s| ==> !IsWhitespace(s[j])
  }

  /** Position `i` holds the one and only '@' of `s`. */
  predicate OnlyAt(s: string, i: int) {
    0 <= i < |s| && s[i] == '@' && forall j :: 0 <= j < |s| && j != i ==> s[j] != '@'
  }

  /** The domain after position `i` has a '.' with text on both sides. */
  predicate DotInside(s: string, i: nat) {
    exists k :: i + 1 < k < |s| - 1 && s[k] == '.'
  }

  /** No white space, exactly one '@', a non-empty local part, and a domain
      holding a '.' that is neither its first nor its last character. */
  predicate Shaped(s: string) {
    NoWhitespace(s) && exists i :: 0 < i < |s| && OnlyAt(s, i) && DotInside(s, i)
  }

  lemma MatchesIffShaped(s: string)
    ensures Matches(s) <==> Shaped(s)
  {
    if Matches(s) {
      var i, k :| 0 < i && i + 1 < k && k + 1 < |s| && s[i] == '@' && s[k] == '.'
                  && Plain(s[..i]) && Plain(s[i + 1..k]) && Plain(s[k + 1..]);
      forall j | 0 <= j < |s| && j != i
        ensures PlainChar(s[j]) || j == k
      {
        if j < i { assert s[j] == s[..i][j]; }
        else if i < j < k { assert s[j] == s[i + 1..k][j - i - 1]; }
        else if k < j { assert s[j] == s[k + 1..][j - k - 1]; }
      }
      assert OnlyAt(s, i);
      assert DotInside(s, i);
    }
    if Shaped(s) {
      var i :| 0 < i < |s| && OnlyAt(s, i) && DotInside(s, i);
      var k :| i + 1 < k < |s| - 1 && s[k] == '.';
      assert Plain(s[..i]);
      assert Plain(s[i + 1..k]);
      assert Plain(s[k + 1..]);
    }
  }

  /** `EMAIL_REGEX.test(s)` as one scan that remembers the first '@', whether
      a second one or any white space was seen, and the first '.' at least
      two places after the '@'. */
  method CheckEmail(s: string) returns (ok: bool)
    ensures ok <==> Matches(s)
    ensures ok <==> Shaped(s)
  {
    var spaced := false;
    var at := -1;
    var secondAt := false;
    var dot := -1;
    var j := 0;
    while j < |s|
      invariant 0 <= j <= |s|
      invariant spaced <==> exists q :: 0 <= q < j && IsWhitespace(s[q])
      invariant -1 <= at < j
      invariant at == -1 ==> forall q :: 0 <= q < j ==> s[q] != '@'
      invariant at >= 0 ==> s[at] == '@' && forall q :: 0 <= q < at ==> s[q] != '@'
      invariant at == -1 ==> !secondAt
      invariant at >= 0 ==> (secondAt <==> exists q :: at < q < j && s[q] == '@')
      invariant at == -1 ==> dot == -1
      invariant at >= 0 && dot == -1 ==> forall q :: at + 2 <= q < j ==> s[q] != '.'
      invariant dot >= 0 ==> at >= 0 && at + 2 <= dot < j && s[dot] == '.'
      invariant dot >= 0 ==> forall q :: at + 2 <= q < dot ==> s[q] != '.'
    {
      var c := s[j];
      if IsWhitespace(c) {
        spaced := true;
      }
      if c == '@' {
        if at == -1 {
          at := j;
        } else {
          secondAt := true;
        }
      } else if c == '.' && at >= 0 && at + 2 <= j && dot == -1 {
        dot := j;
      }
      j := j + 1;
    }
    ok := !spaced && at > 0 && !secondAt && dot >= 0 && dot < |s| - 1;
    if ok {
      assert OnlyAt(s, at);
      assert DotInside(s, at);
      assert Shaped(s);
    }
    if Shaped(s) {
      var i :| 0 < i < |s| && OnlyAt(s, i) && DotInside(s, i);
      assert at == i;
      var k :| i + 1 < k < |s| - 1 && s[k] == '.';
      assert dot != -1;
      assert dot <= k;
      assert !spaced;
      assert !secondAt;
      assert ok;
    }
    MatchesIffShaped(s);
  }
}
