/** `Markdown.parse`: escape the text, then a fixed chain of regex
    replacements that synthesise tags.

    After the escape pass the text holds no '<' and no '>', so every '<'
    that later appears starts a tag some pass inserted, and no pattern of
    the chain can match part of such a tag without matching all of it.
    The intermediate HTML is therefore modelled as a sequence of tokens,
    each a character or a whole synthesised tag, and each pass acts on
    tokens as its regex acts on the characters they spell. */
module Markdown {
  import opened Wrappers
  import opened Seqs
  import opened Text
  import HtmlEscape

  datatype Tag = P | H1 | H2 | H3 | Strong | Em | Li | Ul | Hr | Br | Blockquote

  datatype Tok = Ch(c: char) | Open(tag: Tag) | Close(tag: Tag)

  type Doc = seq<Tok>

  function Name(t: Tag): string {
    match t
    case P => "p"
    case H1 => "h1"
    case H2 => "h2"
    case H3 => "h3"
    case Strong => "strong"
    case Em => "em"
    case Li => "li"
    case Ul => "ul"
    case Hr => "hr"
    case Br => "br"
    case Blockquote => "blockquote"
  }

  function OpenText(t: Tag): string {
    "<" + Name(t) + ">"
  }

  function CloseText(t: Tag): string {
    "</" + Name(t) + ">"
  }

  /** The characters a token stands for. */
  function Spell(k: Tok): string {
    match k
    case Ch(c) => [c]
    case Open(t) => OpenText(t)
    case Close(t) => CloseText(t)
  }

  /** The characters a tag's spelling uses. */
  const TagLetters: set<char> :=
    {'<', '/', '>', 'p', 'h', '1', '2', '3', 's', 't', 'r', 'o', 'n', 'g',
     'e', 'm', 'l', 'i', 'u', 'b', 'c', 'k', 'q'}

  lemma NameLetters(t: Tag)
    ensures forall i | 0 <= i < |Name(t)| :: Name(t)[i] in TagLetters
  {
  }

  /** A token spells its own character, or only tag letters. */
  lemma SpellLetters(k: Tok)
    ensures forall i | 0 <= i < |Spell(k)| :: k == Ch(Spell(k)[i]) || Spell(k)[i] in TagLetters
  {
    if !k.Ch? {
      NameLetters(k.tag);
      var n := Name(k.tag);
      forall i | 0 <= i < |Spell(k)|
        ensures Spell(k)[i] in TagLetters
      {
        if k.Open? {
          assert Spell(k) == "<" + n + ">";
          if 0 < i <= |n| { assert Spell(k)[i] == n[i - 1]; }
        } else {
          assert Spell(k) == "</" + n + ">";
          if 1 < i <= |n| + 1 { assert Spell(k)[i] == n[i - 2]; }
        }
      }
    }
  }

  /** The HTML string a token sequence stands for: each character is a
      character token of the sequence or a letter of a tag. */
  function Flatten(d: Doc): (r: string)
    ensures forall i | 0 <= i < |r| :: Ch(r[i]) in d || r[i] in TagLetters
    decreases |d|
  {
    if |d| == 0 then ""
    else
      var h := Spell(d[0]);
      var t := Flatten(d[1..]);
      SpellLetters(d[0]);
      assert forall i | 0 <= i < |t| :: Ch(t[i]) in d || t[i] in TagLetters by {
        forall i | 0 <= i < |t|
          ensures Ch(t[i]) in d || t[i] in TagLetters
        {
          if Ch(t[i]) in d[1..] {
            var j :| 0 <= j < |d[1..]| && d[1..][j] == Ch(t[i]);
            assert d[j + 1] == Ch(t[i]);
          }
        }
      }
      h + t
  }

  /** A string as a sequence of character tokens. */
  function Lift(s: string): (d: Doc)
    ensures |d| == |s| && forall i | 0 <= i < |s| :: d[i] == Ch(s[i])
  {
    seq(|s|, i requires 0 <= i < |s| => Ch(s[i]))
  }

  /** A token `.` does not match: a line terminator character. */
  predicate IsBreak(k: Tok) {
    k.Ch? && IsLineTerminator(k.c)
  }

  // ---------------------------------------------------------------------
  // Line-anchored passes: `^marker(.+)$` and `^---$` with the `gm` flags.
  // ---------------------------------------------------------------------

  datatype LineRule = Heading3 | Heading2 | Heading1 | Quote | DashItem | StarItem | Rule

  /** The text a line must start with for the rule to apply. */
  function Marker(rule: LineRule): string {
    match rule
    case Heading3 => "### "
    case Heading2 => "## "
    case Heading1 => "# "
    case Quote => "> "
    case DashItem => "- "
    case StarItem => "* "
    case Rule => "---"
  }

  /** The tag the rule wraps a matching line in. */
  function RuleTag(rule: LineRule): Tag {
    match rule
    case Heading3 => H3
    case Heading2 => H2
    case Heading1 => H1
    case Quote => Blockquote
    case DashItem | StarItem => Li
    case Rule => Hr
  }

  function RuleTokens(rule: LineRule): set<Tok> {
    {Open(RuleTag(rule)), Close(RuleTag(rule))}
  }

  /** One line through one rule. A marker followed by at least one more
      token (`.+`) is replaced by the tag around the rest of the line; a
      rule line is exactly `---` and becomes `<hr>`; any other line is
      left alone. */
  function ApplyRule(rule: LineRule, line: Doc): (r: Doc)
    ensures forall i | 0 <= i < |r| :: r[i] in line || r[i] in RuleTokens(rule)
  {
    var m := Lift(Marker(rule));
    if rule == Rule then
      if line == m then [Open(Hr)] else line
    else if |line| > |m| && m <= line then
      [Open(RuleTag(rule))] + line[|m|..] + [Close(RuleTag(rule))]
    else line
  }

  /** Index of the first line terminator of `d`, or `|d|`. */
  function LineEnd(d: Doc): (k: nat)
    ensures k <= |d|
    ensures k < |d| ==> IsBreak(d[k])
    ensures forall i | 0 <= i < k :: !IsBreak(d[i])
    decreases |d|
  {
    if |d| == 0 || IsBreak(d[0]) then 0 else 1 + LineEnd(d[1..])
  }

  /** A multiline replacement: every line, as delimited by the line
      terminators, goes through the rule; the terminators stay. */
  function MapLines(rule: LineRule, d: Doc): (r: Doc)
    ensures forall i | 0 <= i < |r| :: r[i] in d || r[i] in RuleTokens(rule)
    decreases |d|
  {
    var k := LineEnd(d);
    if k == |d| then ApplyRule(rule, d)
    else
      var line := ApplyRule(rule, d[..k]);
      var rest := MapLines(rule, d[k + 1..]);
      assert forall i | 0 <= i < |line| :: line[i] in d || line[i] in RuleTokens(rule);
      line + [d[k]] + rest
  }

  // ---------------------------------------------------------------------
  // Emphasis: `/\*\*\*(.+?)\*\*\*/g`, `/\*\*(.+?)\*\*/g`, `/\*(.+?)\*/g`.
  // ---------------------------------------------------------------------

  datatype EmRule = StrongEm | StrongOnly | EmOnly

  function Stars(rule: EmRule): nat {
    match rule
    case StrongEm => 3
    case StrongOnly => 2
    case EmOnly => 1
  }

  function Opening(rule: EmRule): Doc {
    match rule
    case StrongEm => [Open(Strong), Open(Em)]
    case StrongOnly => [Open(Strong)]
    case EmOnly => [Open(Em)]
  }

  function Closing(rule: EmRule): Doc {
    match rule
    case StrongEm => [Close(Em), Close(Strong)]
    case StrongOnly => [Close(Strong)]
    case EmOnly => [Close(Em)]
  }

  /** `n` star characters start at index `i`. */
  predicate StarsAt(d: Doc, i: nat, n: nat) {
    i + n <= |d| && forall k | i <= k < i + n :: d[k] == Ch('*')
  }

  /** No line terminator among `d[i..j]`. */
  predicate NoBreak(d: Doc, i: nat, j: nat)
    requires i <= j <= |d|
  {
    forall m | i <= m < j :: !IsBreak(d[m])
  }

  /** The lazy `(.+?)` followed by `n` stars, from index `j` on: the
      nearest `k` where the stars stand, provided no line terminator comes
      first. */
  function FindClose(d: Doc, n: nat, j: nat): (r: Option<nat>)
    requires 0 < n && j <= |d|
    ensures r.Some? ==> j <= r.value && StarsAt(d, r.value, n) && NoBreak(d, j, r.value)
                        && forall m | j <= m < r.value :: !StarsAt(d, m, n)
    ensures r.None? ==> forall k | j <= k <= |d| && StarsAt(d, k, n) :: !NoBreak(d, j, k)
    decreases |d| - j
  {
    if StarsAt(d, j, n) then Some(j)
    else if j < |d| && !IsBreak(d[j]) then FindClose(d, n, j + 1)
    else None
  }

  /** Where the emphasis rule matches at the start of `d`: the index of the
      nearest closing stars. The content is non-empty and free of
      terminators; there is no match exactly when the opening stars, a
      first content token or a reachable closing run is missing. */
  function MatchAt(rule: EmRule, d: Doc): (r: Option<nat>)
    ensures r.Some? ==> Stars(rule) < r.value && r.value + Stars(rule) <= |d|
    ensures r.Some? ==> StarsAt(d, 0, Stars(rule)) && StarsAt(d, r.value, Stars(rule))
                        && NoBreak(d, Stars(rule), r.value)
                        && forall m | Stars(rule) < m < r.value :: !StarsAt(d, m, Stars(rule))
    ensures r.None? ==> !StarsAt(d, 0, Stars(rule)) || Stars(rule) == |d| || IsBreak(d[Stars(rule)])
                        || forall k | Stars(rule) < k <= |d| && StarsAt(d, k, Stars(rule)) :: !NoBreak(d, Stars(rule), k)
  {
    var n := Stars(rule);
    if StarsAt(d, 0, n) && n < |d| && !IsBreak(d[n]) then FindClose(d, n, n + 1) else None
  }

  /** A global emphasis replacement: scan left to right, wrap each match's
      content in the rule's tags, and resume after the closing stars. */
  function Emphasize(rule: EmRule, d: Doc): (r: Doc)
    ensures forall i | 0 <= i < |r| :: r[i] in d || r[i] in Opening(rule) || r[i] in Closing(rule)
    decreases |d|
  {
    if |d| == 0 then []
    else match MatchAt(rule, d)
      case Some(j) =>
        var n := Stars(rule);
        var rest := Emphasize(rule, d[j + n..]);
        assert forall i | 0 <= i < |rest| :: rest[i] in d || rest[i] in Opening(rule) || rest[i] in Closing(rule);
        Opening(rule) + d[n..j] + Closing(rule) + rest
      case None =>
        [d[0]] + Emphasize(rule, d[1..])
  }

  // ---------------------------------------------------------------------
  // Grouping: `/(<li>.*?<\/li>)+/gs` and `/(<blockquote>.*?<\/blockquote>)+/gs`.
  // ---------------------------------------------------------------------

  datatype RunRule = ListRun | QuoteRun

  function RunTag(rule: RunRule): Tag {
    match rule
    case ListRun => Li
    case QuoteRun => Blockquote
  }

  function RunTokens(rule: RunRule): set<Tok> {
    match rule
    case ListRun => {Open(Ul), Close(Ul)}
    case QuoteRun => {Open(Blockquote), Close(Blockquote), Open(Br)}
  }

  /** The first closing tag `t` at or after index `i`. */
  function FirstClose(d: Doc, t: Tag, i: nat): (r: Option<nat>)
    requires i <= |d|
    ensures r.Some? ==> i <= r.value < |d| && d[r.value] == Close(t)
                        && forall m | i <= m < r.value :: d[m] != Close(t)
    ensures r.None? ==> forall m | i <= m < |d| :: d[m] != Close(t)
    decreases |d| - i
  {
    if i == |d| then None
    else if d[i] == Close(t) then Some(i)
    else FirstClose(d, t, i + 1)
  }

  /** End of the run `(<t>.*?</t>)+` whose next iteration would start at
      `i`: an iteration needs an opening tag there and a closing tag after
      it, the nearest one (lazy `.*?`); the run stops at the first
      iteration that cannot match. */
  function RunEnd(d: Doc, t: Tag, i: nat): (e: nat)
    requires i <= |d|
    ensures i <= e <= |d|
    ensures e > i ==> d[i] == Open(t) && d[e - 1] == Close(t)
    decreases |d| - i
  {
    if i < |d| && d[i] == Open(t) then
      match FirstClose(d, t, i + 1)
      case Some(k) => RunEnd(d, t, k + 1)
      case None => i
    else i
  }

  /** `<\/?blockquote>` replaced by `<br>`. */
  function QuotesToBreaks(m: Doc): (r: Doc)
    ensures |r| == |m|
    ensures forall i | 0 <= i < |m| ::
      r[i] == if m[i] == Open(Blockquote) || m[i] == Close(Blockquote) then Open(Br) else m[i]
    ensures forall i | 0 <= i < |r| :: r[i] in m || r[i] == Open(Br)
    ensures forall i | 0 <= i < |r| :: r[i] != Open(Blockquote) && r[i] != Close(Blockquote)
    decreases |m|
  {
    if |m| == 0 then []
    else
      var k := if m[0] == Open(Blockquote) || m[0] == Close(Blockquote) then Open(Br) else m[0];
      [k] + QuotesToBreaks(m[1..])
  }

  /** `.replace(/^<br>/, '').replace(/<br>$/, '')`: at most one `<br>` is
      dropped at each end, a leading one always, and nothing else. */
  function TrimBreaks(m: Doc): (r: Doc)
    ensures m == r || m == [Open(Br)] + r || m == r + [Open(Br)] || m == [Open(Br)] + r + [Open(Br)]
    ensures |m| > 0 && (m[0] == Open(Br) || m[|m| - 1] == Open(Br)) ==> |r| < |m|
    ensures |m| >= 2 && m[0] == Open(Br) && m[|m| - 1] == Open(Br) ==> |r| == |m| - 2
    ensures forall i | 0 <= i < |r| :: r[i] in m
  {
    var a := if |m| > 0 && m[0] == Open(Br) then m[1..] else m;
    if |a| > 0 && a[|a| - 1] == Open(Br) then a[..|a| - 1] else a
  }

  /** The replacement function applied to a whole run. */
  function Merge(rule: RunRule, m: Doc): (r: Doc)
    ensures forall i | 0 <= i < |r| :: r[i] in m || r[i] in RunTokens(rule)
  {
    match rule
    case ListRun => [Open(Ul)] + m + [Close(Ul)]
    case QuoteRun => [Open(Blockquote)] + TrimBreaks(QuotesToBreaks(m)) + [Close(Blockquote)]
  }

  /** A global grouping replacement: each maximal run found scanning left
      to right is replaced by its merged form. */
  function GroupRuns(rule: RunRule, d: Doc): (r: Doc)
    ensures forall i | 0 <= i < |r| :: r[i] in d || r[i] in RunTokens(rule)
    decreases |d|
  {
    if |d| == 0 then []
    else
      var e := RunEnd(d, RunTag(rule), 0);
      if e > 0 then
        var m := Merge(rule, d[..e]);
        assert forall i | 0 <= i < |m| :: m[i] in d || m[i] in RunTokens(rule);
        m + GroupRuns(rule, d[e..])
      else [d[0]] + GroupRuns(rule, d[1..])
  }

  // ---------------------------------------------------------------------
  // The whole chain.
  // ---------------------------------------------------------------------

  /** The tags the line passes synthesise. */
  predicate IsLineTag(k: Tok) {
    !k.Ch? && k.tag in {H1, H2, H3, Strong, Em, Blockquote, Li, Hr}
  }

  /** Every token of `r` is a token of `d` or a line-pass tag. */
  predicate LineTokensFrom(r: Doc, d: Doc) {
    forall i | 0 <= i < |r| :: r[i] in d || IsLineTag(r[i])
  }

  lemma LineTokensTrans(a: Doc, b: Doc, c: Doc)
    requires LineTokensFrom(a, b) && LineTokensFrom(b, c)
    ensures LineTokensFrom(a, c)
  {
    forall i | 0 <= i < |a|
      ensures a[i] in c || IsLineTag(a[i])
    {
      if a[i] in b {
        var j :| 0 <= j < |b| && b[j] == a[i];
      }
    }
  }

  lemma MapLinesFrom(rule: LineRule, d: Doc)
    ensures LineTokensFrom(MapLines(rule, d), d)
  {
    var r := MapLines(rule, d);
    forall i | 0 <= i < |r|
      ensures r[i] in d || IsLineTag(r[i])
    {
      assert r[i] in d || r[i] in RuleTokens(rule);
    }
  }

  lemma EmphasizeFrom(rule: EmRule, d: Doc)
    ensures LineTokensFrom(Emphasize(rule, d), d)
  {
    var r := Emphasize(rule, d);
    forall i | 0 <= i < |r|
      ensures r[i] in d || IsLineTag(r[i])
    {
      assert r[i] in d || r[i] in Opening(rule) || r[i] in Closing(rule);
    }
  }

  /** Headers, emphasis, blockquote lines, list items and rules, in the
      order of the chain. The passes add tags and never a character. */
  function LinePasses(d: Doc): (r: Doc)
    ensures forall i | 0 <= i < |r| :: r[i] in d || IsLineTag(r[i])
  {
    var h3 := MapLines(Heading3, d);
    MapLinesFrom(Heading3, d);
    var h2 := MapLines(Heading2, h3);
    MapLinesFrom(Heading2, h3);
    LineTokensTrans(h2, h3, d);
    var h1 := MapLines(Heading1, h2);
    MapLinesFrom(Heading1, h2);
    LineTokensTrans(h1, h2, d);
    var e3 := Emphasize(StrongEm, h1);
    EmphasizeFrom(StrongEm, h1);
    LineTokensTrans(e3, h1, d);
    var e2 := Emphasize(StrongOnly, e3);
    EmphasizeFrom(StrongOnly, e3);
    LineTokensTrans(e2, e3, d);
    var e1 := Emphasize(EmOnly, e2);
    EmphasizeFrom(EmOnly, e2);
    LineTokensTrans(e1, e2, d);
    var q := MapLines(Quote, e1);
    MapLinesFrom(Quote, e1);
    LineTokensTrans(q, e1, d);
    var l1 := MapLines(DashItem, q);
    MapLinesFrom(DashItem, q);
    LineTokensTrans(l1, q, d);
    var l2 := MapLines(StarItem, l1);
    MapLinesFrom(StarItem, l1);
    LineTokensTrans(l2, l1, d);
    var r := MapLines(Rule, l2);
    MapLinesFrom(Rule, l2);
    LineTokensTrans(r, l2, d);
    r
  }

  /** `\n\n` becomes `</p><p>`, then `\n` becomes `<br>`; the whole is
      wrapped in a paragraph and the empty paragraphs `<p></p>` removed.
      Only paragraph and break tags are added. */
  function Paragraphs(d: Doc): (r: Doc)
    ensures forall i | 0 <= i < |r| :: r[i] in d || r[i] in {Open(P), Close(P), Open(Br)}
  {
    var p := Replace(d, [Ch('\n'), Ch('\n')], [Close(P), Open(P)]);
    var b := Replace(p, [Ch('\n')], [Open(Br)]);
    var w := [Open(P)] + b + [Close(P)];
    var r := Replace(w, [Open(P), Close(P)], []);
    forall i | 0 <= i < |r|
      ensures r[i] in d || r[i] in {Open(P), Close(P), Open(Br)}
    {
      assert r[i] in w;
      var j :| 0 <= j < |w| && w[j] == r[i];
      if 0 < j < |w| - 1 {
        assert w[j] == b[j - 1];
        assert b[j - 1] in p || b[j - 1] in [Open(Br)];
        if b[j - 1] in p {
          var k :| 0 <= k < |p| && p[k] == b[j - 1];
          assert p[k] in d || p[k] in [Close(P), Open(P)];
        }
      }
    }
    r
  }

  /** `Markdown.parse`: the empty text gives the empty string. Every
      character of the output is a character of the text, a letter of one
      of the three references, or a letter of a synthesised tag. */
  function Render(text: string): (r: string)
    ensures forall i | 0 <= i < |r| :: r[i] in text || r[i] in HtmlEscape.EntityChars || r[i] in TagLetters
  {
    if text == "" then ""
    else
      var e := HtmlEscape.Escape(text);
      var d := Lift(e);
      var g := GroupRuns(QuoteRun, GroupRuns(ListRun, Paragraphs(LinePasses(d))));
      ChainTokensFrom(d);
      CharTokensOf(g, e);
      Flatten(g)
  }

  /** Every character token of `a` is a token of `b`. */
  predicate CharTokensFrom(a: Doc, b: Doc) {
    forall i | 0 <= i < |a| :: a[i].Ch? ==> a[i] in b
  }

  lemma CharTokensTrans(a: Doc, b: Doc, c: Doc)
    requires CharTokensFrom(a, b) && CharTokensFrom(b, c)
    ensures CharTokensFrom(a, c)
  {
    forall i | 0 <= i < |a| && a[i].Ch?
      ensures a[i] in c
    {
      var j :| 0 <= j < |b| && b[j] == a[i];
    }
  }

  lemma LineCharTokens(d: Doc)
    ensures CharTokensFrom(LinePasses(d), d)
  {
  }

  lemma ParagraphCharTokens(d: Doc)
    ensures CharTokensFrom(Paragraphs(d), d)
  {
  }

  lemma GroupCharTokens(rule: RunRule, d: Doc)
    ensures CharTokensFrom(GroupRuns(rule, d), d)
  {
    var r := GroupRuns(rule, d);
    forall i | 0 <= i < |r| && r[i].Ch?
      ensures r[i] in d
    {
      assert r[i] in d || r[i] in RunTokens(rule);
    }
  }

  /** The whole chain after escaping adds tags and never a character. */
  lemma ChainTokensFrom(d: Doc)
    ensures CharTokensFrom(GroupRuns(QuoteRun, GroupRuns(ListRun, Paragraphs(LinePasses(d)))), d)
  {
    var l := LinePasses(d);
    var p := Paragraphs(l);
    var u := GroupRuns(ListRun, p);
    var g := GroupRuns(QuoteRun, u);
    LineCharTokens(d);
    ParagraphCharTokens(l);
    GroupCharTokens(ListRun, p);
    GroupCharTokens(QuoteRun, u);
    CharTokensTrans(u, p, l);
    CharTokensTrans(g, u, l);
    CharTokensTrans(g, l, d);
  }

  /** A sequence whose character tokens come from `Lift(e)` spells only
      characters of `e` besides tag letters. */
  lemma CharTokensOf(g: Doc, e: string)
    requires CharTokensFrom(g, Lift(e))
    ensures forall c :: Ch(c) in g ==> c in e
  {
    forall c | Ch(c) in g
      ensures c in e
    {
      var d := Lift(e);
      var j :| 0 <= j < |d| && d[j] == Ch(c);
      assert e[j] == c;
    }
  }
}
