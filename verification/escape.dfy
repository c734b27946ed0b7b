/** The first three replacements of `Markdown.parse`: '&', '<' and '>'
    become character references, in that order, before any tag is made. */
module HtmlEscape {
  import opened Seqs

  /** The reference a single character is written as. */
  function EscapeChar(c: char): string {
    if c == '&' then "&amp;" else if c == '<' then "&lt;" else if c == '>' then "&gt;" else [c]
  }

  /** Character-by-character escaping. */
  function EscapeEach(s: string): string
    decreases |s|
  {
    if |s| == 0 then "" else EscapeChar(s[0]) + EscapeEach(s[1..])
  }

  /** The chain `.replace(/&/g, '&amp;').replace(/</g, '&lt;').replace(/>/g, '&gt;')`. */
  function Escape(s: string): (r: string)
    ensures forall i | 0 <= i < |r| :: r[i] in s || r[i] in EntityChars
  {
    ChainChars(s);
    Replace(Replace(Replace(s, "&", "&amp;"), "<", "&lt;"), ">", "&gt;")
  }

  /** The characters of the three references `&amp;`, `&lt;`, `&gt;`. */
  const EntityChars: string := "&amp;lt;gt"

  /** Each replacement writes only characters of its input or of its
      reference. */
  lemma ChainChars(s: string)
    ensures forall i | 0 <= i < |Replace(Replace(Replace(s, "&", "&amp;"), "<", "&lt;"), ">", "&gt;")| ::
      Replace(Replace(Replace(s, "&", "&amp;"), "<", "&lt;"), ">", "&gt;")[i] in s
      || Replace(Replace(Replace(s, "&", "&amp;"), "<", "&lt;"), ">", "&gt;")[i] in EntityChars
  {
    var a := Replace(s, "&", "&amp;");
    var b := Replace(a, "<", "&lt;");
    var c := Replace(b, ">", "&gt;");
    forall i | 0 <= i < |c|
      ensures c[i] in s || c[i] in EntityChars
    {
      if c[i] !in "&gt;" {
        assert c[i] in b;
        var j :| 0 <= j < |b| && b[j] == c[i];
        if b[j] !in "&lt;" {
          assert b[j] in a;
        }
      }
    }
  }

  /** Replacing '&' first means the later passes never re-escape the '&'
      of a reference they insert: the chain escapes each character once. */
  lemma {:induction false} EscapeIsCharwise(s: string)
    ensures Escape(s) == EscapeEach(s)
    decreases |s|
  {
    if |s| > 0 {
      var c, t := s[0], s[1..];
      assert s == [c] + t;
      var a1 := Replace([c], "&", "&amp;");
      ReplaceOneConcat([c], t, '&', "&amp;");
      var a2 := Replace(a1, "<", "&lt;");
      ReplaceOneConcat(a1, Replace(t, "&", "&amp;"), '<', "&lt;");
      ReplaceOneConcat(a2, Replace(Replace(t, "&", "&amp;"), "<", "&lt;"), '>', "&gt;");
      CharChain(c);
      EscapeIsCharwise(t);
    }
  }

  /** The chain on a one-character string. */
  lemma CharChain(c: char)
    ensures Replace(Replace(Replace([c], "&", "&amp;"), "<", "&lt;"), ">", "&gt;") == EscapeChar(c)
  {
    ReplaceSingle(c, '&', "&amp;");
    if c == '&' {
      AmpSurvives("&amp;");
    } else {
      ReplaceSingle(c, '<', "&lt;");
      if c == '<' {
        LtSurvives("&lt;");
      } else {
        ReplaceSingle(c, '>', "&gt;");
      }
    }
  }

  /** Replacing in a one-element sequence. */
  lemma ReplaceSingle<T>(c: T, x: T, rep: seq<T>)
    ensures Replace([c], [x], rep) == if c == x then rep else [c]
  {
    assert [c][1..] == [];
    if c == x {
      assert [x] <= [c];
    } else {
      assert [c][..1] == [c] && [x][0] != [c][0];
    }
  }

  /** The escape of '&' is left alone by the two later replacements. */
  lemma AmpSurvives(x: string)
    requires x == "&amp;"
    ensures Replace(Replace(x, "<", "&lt;"), ">", "&gt;") == x
  {
    NoSpecial(x, '<', "&lt;");
    NoSpecial(x, '>', "&gt;");
  }

  /** The escape of '<' is left alone by the replacement of '>'. */
  lemma LtSurvives(x: string)
    requires x == "&lt;"
    ensures Replace(x, ">", "&gt;") == x
  {
    NoSpecial(x, '>', "&gt;");
  }

  /** A single-character pattern that does not occur is not replaced. */
  lemma NoSpecial(s: string, x: char, rep: string)
    requires x !in s
    ensures Replace(s, [x], rep) == s
  {
    forall i: nat | i < |s|
      ensures !OccursAt(s, [x], i)
    {
      assert s[i] != x;
      if i + 1 <= |s| {
        assert s[i..i + 1] == [s[i]];
      }
    }
    ReplaceAbsent(s, [x], rep);
  }

  /** The escaped text contains no '<' and no '>'. */
  lemma {:induction false} EscapedHasNoAngles(s: string)
    ensures '<' !in Escape(s) && '>' !in Escape(s)
    decreases |s|
  {
    EscapeIsCharwise(s);
    EachHasNoAngles(s);
  }

  lemma {:induction false} EachHasNoAngles(s: string)
    ensures '<' !in EscapeEach(s) && '>' !in EscapeEach(s)
    decreases |s|
  {
    if |s| > 0 {
      EachHasNoAngles(s[1..]);
    }
  }

  /** Decoding of the three references escaping produces. */
  function Unescape(s: string): string
    decreases |s|
  {
    if |s| == 0 then ""
    else if "&amp;" <= s then "&" + Unescape(s[5..])
    else if "&lt;" <= s then "<" + Unescape(s[4..])
    else if "&gt;" <= s then ">" + Unescape(s[4..])
    else [s[0]] + Unescape(s[1..])
  }

  /** Escaping loses nothing: decoding the references gives the text back. */
  lemma {:induction false} UnescapeEscape(s: string)
    ensures Unescape(Escape(s)) == s
  {
    EscapeIsCharwise(s);
    UnescapeEach(s);
  }

  lemma {:induction false} UnescapeEach(s: string)
    ensures Unescape(EscapeEach(s)) == s
    decreases |s|
  {
    if |s| > 0 {
      var c, t := s[0], s[1..];
      var e := EscapeEach(t);
      var x := EscapeChar(c) + e;
      assert EscapeEach(s) == x;
      UnescapeEach(t);
      if c == '&' {
        assert "&amp;" <= x && x[5..] == e;
      } else if c == '<' {
        assert x[1] == 'l' && "&amp;"[1] == 'a';
        assert !("&amp;" <= x) && "&lt;" <= x && x[4..] == e;
      } else if c == '>' {
        assert x[1] == 'g' && "&amp;"[1] == 'a' && "&lt;"[1] == 'l';
        assert !("&amp;" <= x) && !("&lt;" <= x) && "&gt;" <= x && x[4..] == e;
      } else {
        assert x[0] == c && x[1..] == e;
      }
      assert Unescape(x) == [c] + Unescape(e);
      assert s == [c] + t;
    }
  }

  /** Escaping keeps the first character, or replaces it by the '&' that
      opens its reference. */
  lemma EscapeFirst(s: string)
    requires |s| > 0
    ensures |Escape(s)| > 0 && (Escape(s)[0] == s[0] || Escape(s)[0] == '&')
  {
    EscapeIsCharwise(s);
    assert EscapeEach(s) == EscapeChar(s[0]) + EscapeEach(s[1..]);
  }
}
