/** `Writings.createExcerpt`: the plain-text preview stored with each
    writing. Five global regex replacements strip markdown syntax, the
    result is trimmed, and it is cut to 150 characters plus "...".
    Each regex pass is modelled as the left-to-right scan the regex engine
    performs: try to match at the current position; on success emit the
    replacement and resume after the match, otherwise keep one character
    and move on. */
module Excerpt {
  import opened Text

  /** The default `length` argument of `createExcerpt`. */
  const ExcerptLength: nat := 150
  const Ellipsis: string := "..."

  /** Length of the run of '#' that starts `s`. */
  function HashRun(s: string): (n: nat)
    ensures n <= |s|
    ensures forall i | 0 <= i < n :: s[i] == '#'
    ensures n == |s| || s[n] != '#'
    decreases |s|
  {
    if |s| > 0 && s[0] == '#' then 1 + HashRun(s[1..]) else 0
  }

  /** Length of the run of characters other than '*' that starts `s`. */
  function NonStarRun(s: string): (n: nat)
    ensures n <= |s|
    ensures forall i | 0 <= i < n :: s[i] != '*'
    ensures n == |s| || s[n] == '*'
    decreases |s|
  {
    if |s| > 0 && s[0] != '*' then 1 + NonStarRun(s[1..]) else 0
  }

  /** `/#{1,6}\s/g` replaced by ''. At a given position the greedy
      `#{1,6}` can only be followed by whitespace if it takes the whole
      '#' run, so a match exists exactly when that run has 1 to 6 marks
      and is followed by whitespace. */
  function StripHeadingMarks(s: string): (r: string)
    ensures |r| <= |s|
    ensures forall i | 0 <= i < |r| :: r[i] in s
    decreases |s|
  {
    if |s| == 0 then ""
    else
      var n := HashRun(s);
      if 1 <= n <= 6 && n < |s| && IsSpace(s[n]) then StripHeadingMarks(s[n + 1..])
      else [s[0]] + StripHeadingMarks(s[1..])
  }

  /** The bold pass of `createExcerpt`: every match of `\*\*([^*]+)\*\*`
      (global flag) is replaced by its group, so a pair of stars, a
      non-empty run of non-stars and a pair of stars leave only the run. */
  function StripBold(s: string): (r: string)
    ensures |r| <= |s|
    ensures forall i | 0 <= i < |r| :: r[i] in s
    decreases |s|
  {
    if |s| == 0 then ""
    else if "**" <= s && 0 < NonStarRun(s[2..]) && "**" <= s[2 + NonStarRun(s[2..])..] then
      var n := NonStarRun(s[2..]);
      s[2..2 + n] + StripBold(s[4 + n..])
    else [s[0]] + StripBold(s[1..])
  }

  /** The italic pass: every match of `\*([^*]+)\*` (global flag) is
      replaced by its group, so a star, a non-empty run of non-stars and a
      star leave only the run. */
  function StripItalic(s: string): (r: string)
    ensures |r| <= |s|
    ensures forall i | 0 <= i < |r| :: r[i] in s
    decreases |s|
  {
    if |s| == 0 then ""
    else if s[0] == '*' && 0 < NonStarRun(s[1..]) && 1 + NonStarRun(s[1..]) < |s| then
      var n := NonStarRun(s[1..]);
      s[1..1 + n] + StripItalic(s[2 + n..])
    else [s[0]] + StripItalic(s[1..])
  }

  /** A marker character followed by whitespace, removed together: `/>\s/g`
      with `markers == {'>'}`, `/[-*]\s/g` with `markers == {'-', '*'}`. */
  function StripMarkers(s: string, markers: set<char>): (r: string)
    ensures |r| <= |s|
    ensures forall i | 0 <= i < |r| :: r[i] in s
    decreases |s|
  {
    if |s| == 0 then ""
    else if |s| >= 2 && s[0] in markers && IsSpace(s[1]) then StripMarkers(s[2..], markers)
    else [s[0]] + StripMarkers(s[1..], markers)
  }

  /** The `plain` text of `createExcerpt`: the five passes in order, trimmed. */
  function Plain(content: string): (r: string)
    ensures |r| <= |content|
    ensures IsTrimmed(r)
    ensures forall k | 0 <= k < |r| :: r[k] in content
  {
    var h := StripHeadingMarks(content);
    var b := StripBold(h);
    var i := StripItalic(b);
    var q := StripMarkers(i, {'>'});
    var l := StripMarkers(q, {'-', '*'});
    var r := Trim(l);
    TrimKeepsChars(l, r);
    CharsFromTrans(r, l, q);
    CharsFromTrans(r, q, i);
    CharsFromTrans(r, i, b);
    CharsFromTrans(r, b, h);
    CharsFromTrans(r, h, content);
    r
  }

  /** Every character of `r` occurs in `s`. */
  predicate CharsFrom(r: string, s: string) {
    forall k | 0 <= k < |r| :: r[k] in s
  }

  lemma CharsFromTrans(a: string, b: string, c: string)
    requires CharsFrom(a, b) && CharsFrom(b, c)
    ensures CharsFrom(a, c)
  {
    forall k | 0 <= k < |a|
      ensures a[k] in c
    {
      var j :| 0 <= j < |b| && b[j] == a[k];
    }
  }

  lemma TrimKeepsChars(s: string, r: string)
    requires exists a: nat :: TrimmedSlice(s, r, a)
    ensures CharsFrom(r, s)
  {
    var a: nat :| TrimmedSlice(s, r, a);
    forall k | 0 <= k < |r|
      ensures r[k] in s
    {
      assert r[k] == s[a + k];
    }
  }

  /** Longer than `n`: the first `n` characters and the ellipsis.
      Otherwise: the text itself. */
  function Truncate(s: string, n: nat): (r: string)
    ensures |r| <= n + |Ellipsis|
    ensures |s| > n ==> |r| == n + |Ellipsis| && r[..n] == s[..n] && r[n..] == Ellipsis
    ensures |s| <= n ==> r == s
  {
    if |s| > n then s[..n] + Ellipsis else s
  }

  /** `createExcerpt(content)` with its default length: at most 153
      characters, each one from the content or a dot of the ellipsis. */
  function Derive(content: string): (r: string)
    ensures |r| <= ExcerptLength + |Ellipsis|
    ensures forall k | 0 <= k < |r| :: r[k] in content || r[k] == '.'
  {
    var p := Plain(content);
    var r := Truncate(p, ExcerptLength);
    TruncateChars(p, ExcerptLength, r);
    r
  }

  lemma TruncateChars(s: string, n: nat, r: string)
    requires r == Truncate(s, n)
    ensures forall k | 0 <= k < |r| :: r[k] in s || r[k] == '.'
  {
    if |s| > n {
      forall k | 0 <= k < |r|
        ensures r[k] in s || r[k] == '.'
      {
        if k < n {
          assert r[k] == r[..n][k] == s[k];
        } else {
          assert r[k] == r[n..][k - n] == Ellipsis[k - n];
        }
      }
    }
  }

  /** An excerpt never exceeds 153 characters; it is the plain text
      itself exactly when that fits in 150, and otherwise the first 150
      plain characters and "...". */
  lemma DeriveShape(content: string)
    ensures |Derive(content)| <= ExcerptLength + |Ellipsis|
    ensures |Plain(content)| <= ExcerptLength ==> Derive(content) == Plain(content)
    ensures |Plain(content)| > ExcerptLength ==>
              Derive(content) == Plain(content)[..ExcerptLength] + Ellipsis
  {
    var p := Plain(content);
    if |p| > ExcerptLength {
      var d := Derive(content);
      assert d == d[..ExcerptLength] + d[ExcerptLength..];
    }
  }

  /** Content of at most 150 characters is never truncated, since no pass
      lengthens the text. */
  lemma ShortContentNotTruncated(content: string)
    requires |content| <= ExcerptLength
    ensures Derive(content) == Plain(content)
    ensures IsTrimmed(Derive(content))
  {
  }

  /** Text without '#' has no heading marks to strip. */
  lemma {:induction false} HeadingMarksAbsent(s: string)
    requires '#' !in s
    ensures StripHeadingMarks(s) == s
    decreases |s|
  {
    if |s| > 0 {
      assert '#' !in s[1..];
      HeadingMarksAbsent(s[1..]);
    }
  }

  /** Text without '*' has no emphasis to strip. */
  lemma {:induction false} EmphasisAbsent(s: string)
    requires '*' !in s
    ensures StripBold(s) == s
    ensures StripItalic(s) == s
    decreases |s|
  {
    if |s| > 0 {
      assert '*' !in s[1..];
      EmphasisAbsent(s[1..]);
    }
  }

  /** Text without any marker character has no marker to strip. */
  lemma {:induction false} MarkersAbsent(s: string, markers: set<char>)
    requires forall i | 0 <= i < |s| :: s[i] !in markers
    ensures StripMarkers(s, markers) == s
    decreases |s|
  {
    if |s| > 0 {
      MarkersAbsent(s[1..], markers);
    }
  }

  /** Text with no '>', '-' or '*' passes both marker passes unchanged. */
  lemma MarkerPassesAbsent(s: string)
    requires '*' !in s && '>' !in s && '-' !in s
    ensures StripMarkers(StripMarkers(s, {'>'}), {'-', '*'}) == s
  {
    forall i | 0 <= i < |s|
      ensures s[i] !in {'>'} && s[i] !in {'-', '*'}
    {
      assert s[i] in s;
    }
    MarkersAbsent(s, {'>'});
    MarkersAbsent(s, {'-', '*'});
  }

  /** Trimmed text with no '*', '>' or '-' passes the last three passes unchanged. */
  lemma LastPassesAbsent(s: string)
    requires '*' !in s && '>' !in s && '-' !in s && IsTrimmed(s)
    ensures Trim(StripMarkers(StripMarkers(StripItalic(s), {'>'}), {'-', '*'})) == s
  {
    EmphasisAbsent(s);
    MarkerPassesAbsent(s);
    TrimTrimmed(s);
  }

  lemma {:induction false} FirstHeadingPass(x: string)
    requires x == "#** ** z"
    ensures StripHeadingMarks(x) == x
  {
    assert HashRun(x[1..]) == 0;
    assert HashRun(x) == 1 && !IsSpace(x[1]);
    HeadingMarksAbsent(x[1..]);
  }

  lemma {:induction false} FirstBoldPass(x: string)
    requires x == "#** ** z"
    ensures StripBold(x) == "#  z"
  {
    assert NonStarRun(x[3..]) == 1;
    assert x[1..][5..] == x[6..];
    EmphasisAbsent(x[6..]);
    assert StripBold(x[1..]) == [' '] + x[6..];
  }

  lemma NoMarkupLeft(b: string)
    requires b == "#  z"
    ensures '*' !in b && '>' !in b && '-' !in b && IsTrimmed(b)
  {
  }

  /** The five passes on the text `#** ** z`: only the bold pass changes it. */
  lemma {:induction false} FirstDerivation(x: string)
    requires x == "#** ** z"
    ensures Plain(x) == "#  z"
  {
    FirstHeadingPass(x);
    FirstBoldPass(x);
    var b := StripBold(x);
    assert Plain(x) == Trim(StripMarkers(StripMarkers(StripItalic(b), {'>'}), {'-', '*'}));
    NoMarkupLeft(b);
    LastPassesAbsent(b);
  }

  lemma {:induction false} SecondHeadingPass(y: string)
    requires y == "#  z"
    ensures StripHeadingMarks(y) == y[2..]
  {
    assert HashRun(y[1..]) == 0;
    assert HashRun(y) == 1 && IsSpace(y[1]);
    HeadingMarksAbsent(y[2..]);
  }

  lemma {:induction false} SecondLastPasses(h: string)
    requires h == " z"
    ensures Trim(StripMarkers(StripMarkers(StripItalic(StripBold(h)), {'>'}), {'-', '*'})) == "z"
  {
    EmphasisAbsent(h);
    MarkersAbsent(h, {'>'});
    MarkersAbsent(h, {'-', '*'});
    assert TrimStart(h) == h[1..];
    assert TrimEnd(h[1..]) == h[1..];
  }

  /** The five passes on the text `#  z`: the heading pass now strips `# `. */
  lemma {:induction false} SecondDerivation(y: string)
    requires y == "#  z"
    ensures Plain(y) == "z"
  {
    SecondHeadingPass(y);
    var h := StripHeadingMarks(y);
    assert Plain(y) == Trim(StripMarkers(StripMarkers(StripItalic(StripBold(h)), {'>'}), {'-', '*'}));
    SecondLastPasses(h);
  }

  /** Re-deriving an excerpt from an excerpt does not in general give it
      back: stripping `**` pairs can bring a '#' next to a space, which the
      earlier heading pass had already gone past. */
  lemma DeriveNotIdempotent(x: string)
    requires x == "#** ** z"
    ensures Derive(x) == "#  z"
    ensures Derive(Derive(x)) == "z" != Derive(x)
  {
    FirstDerivation(x);
    SecondDerivation(Derive(x));
  }
}
