/** Character classes and string helpers with JavaScript's meaning:
    the `\s` class (which is also what `String.prototype.trim` strips),
    the line terminators that `.` and the multiline anchors respect, and
    `toLowerCase` restricted to ASCII letters. */
module Text {

  /** ECMAScript WhiteSpace or LineTerminator: the `\s` class. */
  predicate IsSpace(c: char) {
    || c == '\t' || c == '\n' || c == '\U{000B}' || c == '\U{000C}' || c == '\r' || c == ' '
    || c == '\U{00A0}' || c == '\U{1680}' || ('\U{2000}' <= c <= '\U{200A}')
    || c == '\U{2028}' || c == '\U{2029}' || c == '\U{202F}' || c == '\U{205F}'
    || c == '\U{3000}' || c == '\U{FEFF}'
  }

  /** ECMAScript LineTerminator: what `.` does not match and where `^`/`$`
      match under the `m` flag. */
  predicate IsLineTerminator(c: char) {
    c == '\n' || c == '\r' || c == '\U{2028}' || c == '\U{2029}'
  }

  /** Neither end of `s` is whitespace. */
  predicate IsTrimmed(s: string) {
    |s| == 0 || (!IsSpace(s[0]) && !IsSpace(s[|s| - 1]))
  }

  /** `s` without its leading whitespace. */
  function TrimStart(s: string): (r: string)
    ensures |r| <= |s| && r == s[|s| - |r|..]
    ensures |r| == 0 || !IsSpace(r[0])
    ensures forall i | 0 <= i < |s| - |r| :: IsSpace(s[i])
    decreases |s|
  {
    if |s| > 0 && IsSpace(s[0]) then TrimStart(s[1..]) else s
  }

  /** `s` without its trailing whitespace. */
  function TrimEnd(s: string): (r: string)
    ensures |r| <= |s| && r == s[..|r|]
    ensures |r| == 0 || !IsSpace(r[|r| - 1])
    ensures forall i | |r| <= i < |s| :: IsSpace(s[i])
    decreases |s|
  {
    if |s| > 0 && IsSpace(s[|s| - 1]) then TrimEnd(s[..|s| - 1]) else s
  }

  /** `r` is `s[a..a + |r|]` and everything of `s` outside that slice is whitespace. */
  ghost predicate TrimmedSlice(s: string, r: string, a: nat) {
    && a + |r| <= |s| && r == s[a..a + |r|]
    && (forall i | 0 <= i < a :: IsSpace(s[i]))
    && (forall i | a + |r| <= i < |s| :: IsSpace(s[i]))
  }

  /** `String.prototype.trim`: the result is the slice of `s` left once
      the whitespace at both ends is removed. */
  function Trim(s: string): (r: string)
    ensures IsTrimmed(r)
    ensures exists a: nat :: TrimmedSlice(s, r, a)
  {
    var t := TrimStart(s);
    var r := TrimEnd(t);
    var a := |s| - |t|;
    assert r == s[a..a + |r|];
    assert TrimmedSlice(s, r, a);
    assert |r| > 0 ==> !IsSpace(r[0]) by {
      if |r| > 0 { assert r[0] == t[0]; }
    }
    r
  }

  /** Trimming a string with no whitespace at either end returns it. */
  lemma TrimTrimmed(s: string)
    requires IsTrimmed(s)
    ensures Trim(s) == s
  {
  }

  predicate IsUpperAscii(c: char) {
    'A' <= c <= 'Z'
  }

  function LowerChar(c: char): char {
    if IsUpperAscii(c) then (c as int + 32) as char else c
  }

  /** No ASCII capital letter occurs in `s`. */
  predicate IsLower(s: string) {
    forall i | 0 <= i < |s| :: !IsUpperAscii(s[i])
  }

  /** `String.prototype.toLowerCase` on ASCII letters: every capital is
      replaced by its small letter and nothing else changes. */
  function Lower(s: string): (r: string)
    ensures |r| == |s|
    ensures IsLower(r)
    ensures forall i | 0 <= i < |s| :: r[i] == s[i] || (IsUpperAscii(s[i]) && r[i] == s[i] + 32 as char)
    ensures IsLower(s) ==> r == s
    decreases |s|
  {
    if |s| == 0 then "" else [LowerChar(s[0])] + Lower(s[1..])
  }

  /** Lower-casing never changes whether a character is whitespace, so a
      trimmed string stays trimmed. */
  lemma LowerKeepsTrimmed(s: string)
    requires IsTrimmed(s)
    ensures IsTrimmed(Lower(s))
  {
    if |s| > 0 {
      assert Lower(s)[0] == LowerChar(s[0]);
      assert Lower(s)[|s| - 1] == s[|s| - 1] || IsUpperAscii(s[|s| - 1]);
    }
  }
}
