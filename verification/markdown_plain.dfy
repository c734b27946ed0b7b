/** A reference behaviour for `Markdown.parse`: text that uses none of the
    markdown syntax comes out as one paragraph holding the escaped text. */
module MarkdownPlain {
  import opened Seqs
  import opened Text
  import opened Markdown
  import HtmlEscape
  import MarkdownSafety

  /** Non-empty text on one line, with no star anywhere and not starting
      with a header, list or rule marker. */
  predicate IsPlain(s: string) {
    && |s| > 0
    && s[0] != '#' && s[0] != '-'
    && forall i | 0 <= i < |s| :: s[i] != '*' && !IsLineTerminator(s[i])
  }

  /** Character tokens only, none a star or a terminator, and a first
      token no line rule's marker starts with. */
  ghost predicate PlainDoc(d: Doc) {
    && |d| > 0
    && (forall i | 0 <= i < |d| :: d[i].Ch? && d[i].c != '*' && !IsLineTerminator(d[i].c))
    && d[0].c != '#' && d[0].c != '-' && d[0].c != '>'
  }

  lemma EscapedPlain(s: string)
    requires IsPlain(s)
    ensures PlainDoc(Lift(HtmlEscape.Escape(s)))
  {
    HtmlEscape.EscapeFirst(s);
  }

  lemma LinePassIdentity(rule: LineRule, d: Doc)
    requires PlainDoc(d)
    ensures MapLines(rule, d) == d
  {
    assert LineEnd(d) == |d|;
    assert Lift(Marker(rule))[0].c in "#>-*";
  }

  lemma {:induction false} EmphasisIdentity(rule: EmRule, d: Doc)
    requires forall i | 0 <= i < |d| :: d[i] != Ch('*')
    ensures Emphasize(rule, d) == d
    decreases |d|
  {
    if |d| > 0 {
      assert Stars(rule) >= 1 && d[0] != Ch('*');
      assert !StarsAt(d, 0, Stars(rule));
      EmphasisIdentity(rule, d[1..]);
      assert d == [d[0]] + d[1..];
    }
  }

  lemma LinePassesIdentity(d: Doc)
    requires PlainDoc(d)
    ensures LinePasses(d) == d
  {
    LinePassIdentity(Heading3, d);
    LinePassIdentity(Heading2, d);
    LinePassIdentity(Heading1, d);
    EmphasisIdentity(StrongEm, d);
    EmphasisIdentity(StrongOnly, d);
    EmphasisIdentity(EmOnly, d);
    LinePassIdentity(Quote, d);
    LinePassIdentity(DashItem, d);
    LinePassIdentity(StarItem, d);
    LinePassIdentity(Rule, d);
  }

  /** A single token pattern that does not occur is not replaced. */
  lemma ReplaceOneAbsent(d: Doc, x: Tok, rep: Doc)
    requires forall i | 0 <= i < |d| :: d[i] != x
    ensures Replace(d, [x], rep) == d
  {
    forall i: nat | i < |d|
      ensures !OccursAt(d, [x], i)
    {
      if i + 1 <= |d| { assert d[i..i + 1][0] == d[i]; }
    }
    ReplaceAbsent(d, [x], rep);
  }

  /** A pattern whose first token does not occur is not replaced. */
  lemma ReplaceHeadAbsent(d: Doc, pat: Doc, rep: Doc)
    requires |pat| > 0
    requires forall i | 0 <= i < |d| :: d[i] != pat[0]
    ensures Replace(d, pat, rep) == d
  {
    forall i: nat | i < |d|
      ensures !OccursAt(d, pat, i)
    {
      if i + |pat| <= |d| { assert d[i..i + |pat|][0] == d[i]; }
    }
    ReplaceAbsent(d, pat, rep);
  }

  /** `<p></p>` does not occur in a paragraph of character tokens. */
  lemma EmptyParagraphAbsent(d: Doc, w: Doc)
    requires |d| > 0 && forall i | 0 <= i < |d| :: d[i].Ch?
    requires w == [Open(P)] + d + [Close(P)]
    ensures forall i: nat | i < |w| :: !OccursAt(w, [Open(P), Close(P)], i)
  {
    forall i: nat | i < |w|
      ensures !OccursAt(w, [Open(P), Close(P)], i)
    {
      if i + 2 <= |w| {
        assert w[i..i + 2][0] == w[i] && w[i..i + 2][1] == w[i + 1];
        if i == 0 {
          assert w[1] == d[0];
        } else {
          assert w[i] == d[i - 1];
        }
      }
    }
  }

  /** The wrapped paragraph of non-empty character tokens is not empty. */
  lemma NoEmptyParagraph(d: Doc)
    requires |d| > 0 && forall i | 0 <= i < |d| :: d[i].Ch?
    ensures Replace([Open(P)] + d + [Close(P)], [Open(P), Close(P)], []) == [Open(P)] + d + [Close(P)]
  {
    var w := [Open(P)] + d + [Close(P)];
    EmptyParagraphAbsent(d, w);
    ReplaceAbsent(w, [Open(P), Close(P)], []);
  }

  lemma ParagraphsWrap(d: Doc)
    requires PlainDoc(d)
    ensures Paragraphs(d) == [Open(P)] + d + [Close(P)]
  {
    ReplaceHeadAbsent(d, [Ch('\n'), Ch('\n')], [Close(P), Open(P)]);
    ReplaceOneAbsent(d, Ch('\n'), [Open(Br)]);
    NoEmptyParagraph(d);
  }

  lemma {:induction false} FlattenConcat(a: Doc, b: Doc)
    ensures Flatten(a + b) == Flatten(a) + Flatten(b)
    decreases |a|
  {
    if |a| > 0 {
      assert (a + b)[1..] == a[1..] + b;
      FlattenConcat(a[1..], b);
    } else {
      assert a + b == b;
    }
  }

  lemma {:induction false} FlattenLift(s: string)
    ensures Flatten(Lift(s)) == s
    decreases |s|
  {
    if |s| > 0 {
      assert Lift(s)[1..] == Lift(s[1..]);
      FlattenLift(s[1..]);
      assert s == [s[0]] + s[1..];
    }
  }

  /** A wrapped plain document opens no list item and no quote. */
  lemma WrappedHasNoRunTag(d: Doc, rule: RunRule)
    requires PlainDoc(d)
    ensures forall i | 0 <= i < |[Open(P)] + d + [Close(P)]| ::
      ([Open(P)] + d + [Close(P)])[i] != Open(RunTag(rule))
  {
    var w := [Open(P)] + d + [Close(P)];
    forall i | 0 <= i < |w|
      ensures w[i] != Open(RunTag(rule))
    {
      if 1 <= i <= |d| {
        assert w[i] == d[i - 1];
      }
    }
  }

  /** The block passes of the chain on a plain document only wrap it. */
  lemma BlockPassesPlain(d: Doc)
    requires PlainDoc(d)
    ensures GroupRuns(QuoteRun, GroupRuns(ListRun, Paragraphs(LinePasses(d)))) == [Open(P)] + d + [Close(P)]
  {
    LinePassesIdentity(d);
    ParagraphsWrap(d);
    var w := [Open(P)] + d + [Close(P)];
    assert Paragraphs(LinePasses(d)) == w;
    WrappedHasNoRunTag(d, ListRun);
    MarkdownSafety.GroupRunsAbsent(ListRun, w);
    WrappedHasNoRunTag(d, QuoteRun);
    MarkdownSafety.GroupRunsAbsent(QuoteRun, w);
  }

  /** The token form of a plain text's rendering: its escaped characters
      between an opening and a closing paragraph tag. */
  lemma RenderPlainDoc(text: string)
    requires IsPlain(text)
    ensures Render(text) == Flatten([Open(P)] + Lift(HtmlEscape.Escape(text)) + [Close(P)])
  {
    var d := Lift(HtmlEscape.Escape(text));
    EscapedPlain(text);
    assert text != "";
    BlockPassesPlain(d);
  }

  lemma FlattenParagraph(e: string)
    ensures Flatten([Open(P)] + Lift(e) + [Close(P)]) == "<p>" + e + "</p>"
  {
    var d := Lift(e);
    FlattenConcat([Open(P)] + d, [Close(P)]);
    FlattenConcat([Open(P)], d);
    FlattenLift(e);
    assert Flatten([Open(P)]) == "<p>";
    assert Flatten([Close(P)]) == "</p>";
  }

  /** Text without markdown syntax renders as a single paragraph of its
      escaped form, and unescaping that paragraph gives the text back. */
  lemma RenderPlain(text: string)
    requires IsPlain(text)
    ensures Render(text) == "<p>" + HtmlEscape.Escape(text) + "</p>"
    ensures HtmlEscape.Unescape(Render(text)[3..|Render(text)| - 4]) == text
  {
    var e := HtmlEscape.Escape(text);
    RenderPlainDoc(text);
    FlattenParagraph(e);
    HtmlEscape.UnescapeEscape(text);
    var r := "<p>" + e + "</p>";
    assert r[3..|r| - 4] == e;
  }
}
