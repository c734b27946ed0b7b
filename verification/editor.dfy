/** The editor's pure rules: the tag list guard of the tags input, tag
    removal, and the text splice of the toolbar's `Editor.insertText`. */
module Editor {
  import opened Seqs
  import opened Text

  const MaxTags: nat := 5
  const MaxTagLength: nat := 20

  /** `value.trim().toLowerCase()`. */
  function Normalize(input: string): (t: string)
    ensures IsTrimmed(t) && IsLower(t)
  {
    LowerKeepsTrimmed(Trim(input));
    Lower(Trim(input))
  }

  /** A stored tag: non-empty, at most 20 characters, lower case, trimmed. */
  predicate ValidTag(t: string) {
    0 < |t| <= MaxTagLength && IsLower(t) && IsTrimmed(t)
  }

  /** The tag list the editor keeps: at most five valid tags, no repeats. */
  ghost predicate ValidTags(tags: seq<string>) {
    && |tags| <= MaxTags
    && (forall i | 0 <= i < |tags| :: ValidTag(tags[i]))
    && (forall i, j | 0 <= i < j < |tags| :: tags[i] != tags[j])
  }

  /** Whether the Enter handler accepts the typed text. */
  predicate Accepts(tags: seq<string>, input: string) {
    var t := Normalize(input);
    t != "" && |t| <= MaxTagLength && t !in tags && |tags| < MaxTags
  }

  /** The Enter handler of the tags input: the normalised tag is appended
      when it is non-empty, short enough, new, and the list has room;
      otherwise the list stays as it is. */
  function AddTag(tags: seq<string>, input: string): (r: seq<string>)
    ensures Accepts(tags, input) ==> |r| == |tags| + 1 && r[..|tags|] == tags && r[|tags|] == Normalize(input)
    ensures !Accepts(tags, input) ==> r == tags
  {
    if Accepts(tags, input) then tags + [Normalize(input)] else tags
  }

  /** Adding a tag keeps the list valid. */
  lemma AddTagKeepsValid(tags: seq<string>, input: string)
    requires ValidTags(tags)
    ensures ValidTags(AddTag(tags, input))
  {
    var r := AddTag(tags, input);
    if Accepts(tags, input) {
      forall i, j | 0 <= i < j < |r|
        ensures r[i] != r[j]
      {
        if j == |tags| {
          assert r[i] == tags[i];
        } else {
          assert r[i] == tags[i] && r[j] == tags[j];
        }
      }
    }
  }

  /** Entering the same text twice adds it once. */
  lemma AddTagIdempotent(tags: seq<string>, input: string)
    ensures AddTag(AddTag(tags, input), input) == AddTag(tags, input)
  {
    if Accepts(tags, input) {
      var r := AddTag(tags, input);
      assert r[|tags|] == Normalize(input);
      assert Normalize(input) in r;
    }
  }

  /** The remove button: `currentTags.filter(t => t !== tag)`. */
  function RemoveTag(tags: seq<string>, tag: string): (r: seq<string>)
    ensures tag !in r
    ensures forall i | 0 <= i < |tags| && tags[i] != tag :: tags[i] in r
    ensures forall i | 0 <= i < |r| :: r[i] in tags
    ensures forall x :: multiset(r)[x] == if x == tag then 0 else multiset(tags)[x]
  {
    var keep := (t: string) => t != tag;
    FilterCounts(keep, tags);
    Filter(keep, tags)
  }

  /** Removing keeps the order of the remaining tags. */
  lemma RemoveTagKeepsOrder(tags: seq<string>, tag: string)
    ensures IsSubseq(RemoveTag(tags, tag), tags)
  {
    FilterIsSubseq(t => t != tag, tags);
  }

  /** Removing keeps the list valid. */
  lemma {:induction false} RemoveTagKeepsValid(tags: seq<string>, tag: string)
    requires ValidTags(tags)
    ensures ValidTags(RemoveTag(tags, tag))
  {
    var p := (t: string) => t != tag;
    FilterIsSubseq(p, tags);
    SubseqKeepsDistinct(RemoveTag(tags, tag), tags);
  }

  /** A subsequence of a list without repeats has no repeats. */
  lemma {:induction false} SubseqKeepsDistinct(a: seq<string>, b: seq<string>)
    requires IsSubseq(a, b)
    requires forall i, j | 0 <= i < j < |b| :: b[i] != b[j]
    ensures forall i, j | 0 <= i < j < |a| :: a[i] != a[j]
    ensures |a| <= |b|
    ensures forall i | 0 <= i < |a| :: a[i] in b
    decreases |b|
  {
    if |a| > 0 {
      if a[0] == b[0] && IsSubseq(a[1..], b[1..]) {
        SubseqKeepsDistinct(a[1..], b[1..]);
        forall j | 0 < j < |a|
          ensures a[0] != a[j]
        {
          assert a[j] == a[1..][j - 1];
          assert a[j] in b[1..];
        }
        forall i | 0 <= i < |a|
          ensures a[i] in b
        {
          if i > 0 { assert a[i] == a[1..][i - 1]; }
        }
      } else {
        SubseqKeepsDistinct(a, b[1..]);
      }
    }
  }

  /** A tag just added can be removed again, giving back the old list. */
  lemma RemoveUndoesAdd(tags: seq<string>, input: string)
    requires Accepts(tags, input)
    ensures RemoveTag(AddTag(tags, input), Normalize(input)) == tags
  {
    var t := Normalize(input);
    var p := (x: string) => x != t;
    FilterAll(p, tags);
    FilterAppend(p, tags, [t]);
  }

  /** `Editor.insertText(before, after)` on a textarea holding `value` with
      the selection `[start, end)`: the selection is wrapped in `before`
      and `after`, and the cursor is placed just after `after`. The DOM
      guarantees `0 <= selectionStart <= selectionEnd <= value.length`. */
  function InsertText(value: string, start: nat, end: nat, before: string, after: string)
    : (r: (string, nat))
    requires start <= end <= |value|
    ensures |r.0| == |value| + |before| + |after|
    ensures r.1 == end + |before| + |after|
    ensures r.0[..start] == value[..start]
    ensures r.0[start..start + |before|] == before
    ensures r.0[start + |before|..end + |before|] == value[start..end]
    ensures r.0[end + |before|..r.1] == after
    ensures r.0[r.1..] == value[end..]
  {
    var selected := value[start..end];
    var text := before + selected + after;
    var v := value[..start] + text + value[end..];
    var cursor := start + |before| + |selected| + |after|;
    assert v[start..start + |before|] == before;
    assert v[start + |before|..end + |before|] == selected;
    assert v[end + |before|..cursor] == after;
    assert v[cursor..] == value[end..];
    (v, cursor)
  }

  /** Cutting the inserted markers out of the new value gives the old
      value back. */
  lemma InsertTextUndo(value: string, start: nat, end: nat, before: string, after: string)
    requires start <= end <= |value|
    ensures var (v, cursor) := InsertText(value, start, end, before, after);
            v[..start] + v[start + |before|..cursor - |after|] + v[cursor..] == value
  {
    var (v, cursor) := InsertText(value, start, end, before, after);
    assert value == value[..start] + value[start..end] + value[end..];
  }
}
