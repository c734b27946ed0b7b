/** What the escape-first order of `Markdown.parse` guarantees about its
    output: every '<' starts one of the tags the chain synthesises, so no
    `<script` can appear; and since '>' is already `&gt;` when the
    blockquote pass runs, no blockquote is ever produced. */
module MarkdownSafety {
  import opened Seqs
  import opened Markdown
  import HtmlEscape

  /** A token that may reach the output: a character other than an angle
      bracket, or a tag other than blockquote. */
  predicate SafeTok(k: Tok) {
    if k.Ch? then k.c != '<' && k.c != '>' else k.tag != Blockquote
  }

  ghost predicate Safe(d: Doc) {
    forall i | 0 <= i < |d| :: SafeTok(d[i])
  }

  /** `s` starts with the opening or closing form of tag `t`. */
  predicate StartsTag(s: string, t: Tag) {
    OpenText(t) <= s || CloseText(t) <= s
  }

  /** `s` starts with a tag the chain may emit: any of p, h1, h2, h3,
      strong, em, li, ul, hr, br, but not blockquote. */
  ghost predicate StartsAllowedTag(s: string) {
    exists t: Tag :: t != Blockquote && StartsTag(s, t)
  }

  /** Every '<' of `s` starts an allowed tag. */
  ghost predicate Tagged(s: string) {
    forall k | 0 <= k < |s| && s[k] == '<' :: StartsAllowedTag(s[k..])
  }

  /** Tokens taken from a safe sequence or from a safe set stay safe. */
  lemma SafeByProvenance(r: Doc, d: Doc, extra: set<Tok>)
    requires Safe(d)
    requires forall k | k in extra :: SafeTok(k)
    requires forall i | 0 <= i < |r| :: r[i] in d || r[i] in extra
    ensures Safe(r)
  {
  }

  /** With no '>' character, no line starts with `> `: the blockquote line
      pass returns its input. */
  lemma {:induction false} QuotePassIsDead(d: Doc)
    requires Safe(d)
    ensures MapLines(Quote, d) == d
    decreases |d|
  {
    var k := LineEnd(d);
    var m := Lift(Marker(Quote));
    assert m[0] == Ch('>');
    if |d| > 0 {
      assert SafeTok(d[0]);
    }
    if k < |d| {
      var line := d[..k];
      assert |line| > 0 ==> line[0] == d[0];
      QuotePassIsDead(d[k + 1..]);
      assert d == line + [d[k]] + d[k + 1..];
    }
  }

  /** With no opening tag of the run, grouping returns its input. */
  lemma {:induction false} GroupRunsAbsent(rule: RunRule, d: Doc)
    requires forall i | 0 <= i < |d| :: d[i] != Open(RunTag(rule))
    ensures GroupRuns(rule, d) == d
    decreases |d|
  {
    if |d| > 0 {
      assert RunEnd(d, RunTag(rule), 0) == 0;
      GroupRunsAbsent(rule, d[1..]);
      assert d == [d[0]] + d[1..];
    }
  }

  lemma HeadingPassesSafe(d: Doc)
    requires Safe(d)
    ensures Safe(MapLines(Heading1, MapLines(Heading2, MapLines(Heading3, d))))
  {
    var h3 := MapLines(Heading3, d);
    SafeByProvenance(h3, d, RuleTokens(Heading3));
    var h2 := MapLines(Heading2, h3);
    SafeByProvenance(h2, h3, RuleTokens(Heading2));
    SafeByProvenance(MapLines(Heading1, h2), h2, RuleTokens(Heading1));
  }

  lemma EmphasisPassSafe(rule: EmRule, d: Doc)
    requires Safe(d)
    ensures Safe(Emphasize(rule, d))
  {
    var r := Emphasize(rule, d);
    forall i | 0 <= i < |r|
      ensures SafeTok(r[i])
    {
      assert r[i] in d || r[i] in Opening(rule) || r[i] in Closing(rule);
    }
  }

  lemma ItemPassesSafe(d: Doc)
    requires Safe(d)
    ensures Safe(MapLines(Rule, MapLines(StarItem, MapLines(DashItem, d))))
  {
    var l1 := MapLines(DashItem, d);
    SafeByProvenance(l1, d, RuleTokens(DashItem));
    var l2 := MapLines(StarItem, l1);
    SafeByProvenance(l2, l1, RuleTokens(StarItem));
    SafeByProvenance(MapLines(Rule, l2), l2, RuleTokens(Rule));
  }

  /** The line passes keep a safe sequence safe; the blockquote pass does
      nothing at all. */
  lemma LinePassesSafe(d: Doc)
    requires Safe(d)
    ensures Safe(LinePasses(d))
  {
    var h := MapLines(Heading1, MapLines(Heading2, MapLines(Heading3, d)));
    HeadingPassesSafe(d);
    var e3 := Emphasize(StrongEm, h);
    EmphasisPassSafe(StrongEm, h);
    var e2 := Emphasize(StrongOnly, e3);
    EmphasisPassSafe(StrongOnly, e3);
    var e1 := Emphasize(EmOnly, e2);
    EmphasisPassSafe(EmOnly, e2);
    QuotePassIsDead(e1);
    ItemPassesSafe(e1);
  }

  /** Paragraph folding and list grouping keep a safe sequence safe, and
      the blockquote merge then finds nothing to merge. */
  lemma BlockPassesSafe(d: Doc)
    requires Safe(d)
    ensures Safe(GroupRuns(QuoteRun, GroupRuns(ListRun, Paragraphs(d))))
  {
    var p := Replace(d, [Ch('\n'), Ch('\n')], [Close(P), Open(P)]);
    SafeByProvenance(p, d, {Close(P), Open(P)});
    var b := Replace(p, [Ch('\n')], [Open(Br)]);
    SafeByProvenance(b, p, {Open(Br)});
    var w := [Open(P)] + b + [Close(P)];
    SafeByProvenance(w, b, {Close(P), Open(P)});
    var q := Replace(w, [Open(P), Close(P)], []);
    SafeByProvenance(q, w, {});
    assert Paragraphs(d) == q;
    var u := GroupRuns(ListRun, q);
    SafeByProvenance(u, q, RunTokens(ListRun));
    assert forall i | 0 <= i < |u| :: SafeTok(u[i]);
    GroupRunsAbsent(QuoteRun, u);
  }

  /** A safe token spells a string whose only possible '<' is its first
      character, starting its own allowed tag. */
  lemma SpellTagged(k: Tok)
    requires SafeTok(k)
    ensures Tagged(Spell(k))
  {
    var s := Spell(k);
    forall i | 0 <= i < |s| && s[i] == '<'
      ensures StartsAllowedTag(s[i..])
    {
      if !k.Ch? {
        var t := k.tag;
        assert i == 0 by {
          assert '<' !in Name(t);
          if k.Open? { assert s == "<" + Name(t) + ">"; }
          else { assert s == "</" + Name(t) + ">"; }
        }
        assert s[0..] == s;
        assert StartsTag(s, t);
      }
    }
  }

  /** Gluing two tagged strings gives a tagged string: a tag that starts
      in the left part is still a prefix of the longer suffix. */
  lemma TaggedConcat(a: string, b: string)
    requires Tagged(a) && Tagged(b)
    ensures Tagged(a + b)
  {
    var s := a + b;
    forall k | 0 <= k < |s| && s[k] == '<'
      ensures StartsAllowedTag(s[k..])
    {
      if k < |a| {
        assert a[k] == '<';
        var t :| t != Blockquote && StartsTag(a[k..], t);
        assert s[k..] == a[k..] + b;
        assert StartsTag(s[k..], t);
      } else {
        assert b[k - |a|] == '<';
        assert s[k..] == b[k - |a|..];
      }
    }
  }

  /** The HTML a safe token sequence spells is tagged. */
  lemma {:induction false} FlattenTagged(d: Doc)
    requires Safe(d)
    ensures Tagged(Flatten(d))
    decreases |d|
  {
    if |d| > 0 {
      SpellTagged(d[0]);
      FlattenTagged(d[1..]);
      TaggedConcat(Spell(d[0]), Flatten(d[1..]));
    }
  }

  /** The escaped input, as tokens, is safe. */
  lemma EscapedSafe(text: string)
    ensures Safe(Lift(HtmlEscape.Escape(text)))
  {
    HtmlEscape.EscapedHasNoAngles(text);
  }

  /** `Markdown.parse` of the empty text is the empty string, and in any
      output every '<' starts one of the synthesised tags p, h1, h2, h3,
      strong, em, li, ul, hr or br. */
  lemma RenderTagged(text: string)
    ensures text == "" ==> Render(text) == ""
    ensures Tagged(Render(text))
  {
    if text != "" {
      var d := Lift(HtmlEscape.Escape(text));
      EscapedSafe(text);
      LinePassesSafe(d);
      BlockPassesSafe(LinePasses(d));
      FlattenTagged(GroupRuns(QuoteRun, GroupRuns(ListRun, Paragraphs(LinePasses(d)))));
    }
  }

  /** The first two letters of the allowed tag names that begin like
      `script` or `blockquote`. */
  lemma NameHead(t: Tag)
    requires t != Blockquote
    ensures 1 <= |Name(t)|
    ensures Name(t)[0] == 's' ==> 2 <= |Name(t)| && Name(t)[1] == 't'
    ensures Name(t)[0] == 'b' ==> 2 <= |Name(t)| && Name(t)[1] == 'r'
  {
  }

  /** An opening tag at the front of `s` fixes the letters after '<'. */
  lemma OpenHead(s: string, t: Tag)
    requires OpenText(t) <= s
    ensures 2 <= |s| && s[1] == Name(t)[0]
    ensures 2 <= |Name(t)| ==> 3 <= |s| && s[2] == Name(t)[1]
  {
    assert s[..|OpenText(t)|] == OpenText(t);
    assert OpenText(t)[1] == Name(t)[0];
    if 2 <= |Name(t)| {
      assert OpenText(t)[2] == Name(t)[1];
    }
  }

  /** An allowed tag at the front of `s` rules out `<script` and
      `<blockquote` there. */
  lemma AllowedTagExcludes(s: string, t: Tag)
    requires t != Blockquote && StartsTag(s, t)
    ensures !("<script" <= s) && !("<blockquote" <= s)
  {
    if OpenText(t) <= s {
      NameHead(t);
      OpenHead(s, t);
    } else {
      assert s[..|CloseText(t)|] == CloseText(t);
      assert CloseText(t)[1] == '/';
    }
  }


  /** No `<script` and no `<blockquote` anywhere in the output, whatever
      the input. */
  lemma RenderHasNoScriptOrBlockquote(text: string)
    ensures forall k | 0 <= k <= |Render(text)| ::
              !("<script" <= Render(text)[k..]) && !("<blockquote" <= Render(text)[k..])
  {
    RenderTagged(text);
    var r := Render(text);
    forall k | 0 <= k <= |r|
      ensures !("<script" <= r[k..]) && !("<blockquote" <= r[k..])
    {
      if k < |r| && r[k] == '<' {
        var t :| t != Blockquote && StartsTag(r[k..], t);
        AllowedTagExcludes(r[k..], t);
      }
    }
  }
}
