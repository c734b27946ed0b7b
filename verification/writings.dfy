/** The writing collection of the app (`Writings` and the profile
    statistics): an ordered list of records, newest first. The list is an
    immutable sequence; every operation returns the new list. Identifiers
    and timestamps come from `crypto.randomUUID` and `Date`, so they are
    parameters here. */
module Writings {
  import opened Wrappers
  import opened Seqs
  import Excerpt

  datatype Category = Poetry | Fiction | Essay | Reflection | Other
  datatype Visibility = Public | Private

  datatype Writing = Writing(
    id: string,
    title: string,
    content: string,
    excerpt: string,
    tags: seq<string>,
    category: Category,
    visibility: Visibility,
    createdAt: string,
    updatedAt: string)

  /** The `data` given to `create`. An empty `title` or `content` is falsy in
      JavaScript and counts as absent; `None` is a missing property. */
  datatype Draft = Draft(
    title: string,
    content: string,
    tags: Option<seq<string>>,
    category: Option<Category>,
    visibility: Option<Visibility>)

  /** The `data` given to `update`: a present property replaces the stored
      one, whatever its value, as `{...writing, ...data}` does. It carries no
      `id`, so the identifier can never be overwritten. */
  datatype Patch = Patch(
    title: Option<string>,
    content: Option<string>,
    tags: Option<seq<string>>,
    category: Option<Category>,
    visibility: Option<Visibility>)

  const DefaultTitle: string := "Sans titre"

  /** No two writings share an identifier. */
  ghost predicate UniqueIds(ws: seq<Writing>) {
    forall i, j | 0 <= i < j < |ws| :: ws[i].id != ws[j].id
  }

  ghost predicate HasId(ws: seq<Writing>, id: string) {
    exists i | 0 <= i < |ws| :: ws[i].id == id
  }

  /** `findIndex(w => w.id === id)`: the first position holding `id`. */
  function FindIndex(ws: seq<Writing>, id: string): (r: Option<nat>)
    ensures r.None? <==> !HasId(ws, id)
    ensures r.Some? ==>
              && r.value < |ws| && ws[r.value].id == id
              && forall j | 0 <= j < r.value :: ws[j].id != id
    decreases |ws|
  {
    if |ws| == 0 then None
    else if ws[0].id == id then Some(0)
    else match FindIndex(ws[1..], id)
      case None => None
      case Some(k) => Some(k + 1)
  }

  /** `create`: the new writing, with defaults for what the draft leaves
      out and its excerpt derived from its content, is put in front. */
  function Create(ws: seq<Writing>, d: Draft, id: string, createdAt: string, updatedAt: string)
    : (r: (seq<Writing>, Writing))
    ensures |r.0| == |ws| + 1 && r.0[0] == r.1 && r.0[1..] == ws
    ensures r.1.id == id && r.1.createdAt == createdAt && r.1.updatedAt == updatedAt
    ensures r.1.title == (if d.title == "" then DefaultTitle else d.title)
    ensures r.1.content == d.content && r.1.excerpt == Excerpt.Derive(d.content)
    ensures r.1.tags == d.tags.GetOr([])
    ensures r.1.category == d.category.GetOr(Other)
    ensures r.1.visibility == d.visibility.GetOr(Private)
  {
    var w := Writing(
      id,
      if d.title == "" then DefaultTitle else d.title,
      d.content,
      Excerpt.Derive(d.content),
      d.tags.GetOr([]),
      d.category.GetOr(Other),
      d.visibility.GetOr(Private),
      createdAt,
      updatedAt);
    ([w] + ws, w)
  }

  /** The record `{...w, ...p, excerpt, updatedAt}`. The excerpt follows the
      patch's content only when that content is non-empty; an empty content
      falls back to the old content, so the excerpt can disagree with it. */
  function Apply(w: Writing, p: Patch, updatedAt: string): (u: Writing)
    ensures u.id == w.id && u.createdAt == w.createdAt && u.updatedAt == updatedAt
    ensures u.title == p.title.GetOr(w.title) && u.content == p.content.GetOr(w.content)
    ensures u.tags == p.tags.GetOr(w.tags)
    ensures u.category == p.category.GetOr(w.category)
    ensures u.visibility == p.visibility.GetOr(w.visibility)
    ensures u.excerpt == Excerpt.Derive(if p.content.Some? && p.content.value != "" then p.content.value else w.content)
  {
    Writing(
      w.id,
      p.title.GetOr(w.title),
      p.content.GetOr(w.content),
      Excerpt.Derive(if p.content.Some? && p.content.value != "" then p.content.value else w.content),
      p.tags.GetOr(w.tags),
      p.category.GetOr(w.category),
      p.visibility.GetOr(w.visibility),
      w.createdAt,
      updatedAt)
  }

  /** `update`: the first writing with `id` is replaced by its patched
      version, which is returned; an unknown `id` returns null and changes
      nothing. */
  function Update(ws: seq<Writing>, id: string, p: Patch, updatedAt: string)
    : (r: (seq<Writing>, Option<Writing>))
    ensures !HasId(ws, id) ==> r.0 == ws && r.1 == None
    ensures HasId(ws, id) ==>
              var i := FindIndex(ws, id).value;
              && |r.0| == |ws|
              && r.1 == Some(r.0[i])
              && r.0[i] == Apply(ws[i], p, updatedAt)
              && forall j | 0 <= j < |ws| && j != i :: r.0[j] == ws[j]
  {
    match FindIndex(ws, id)
    case None => (ws, None)
    case Some(i) =>
      var u := Apply(ws[i], p, updatedAt);
      (ws[i := u], Some(u))
  }

  /** `delete`: the first writing with `id` is removed and the others keep
      their order; an unknown `id` returns false and changes nothing. */
  function Delete(ws: seq<Writing>, id: string): (r: (seq<Writing>, bool))
    ensures r.1 <==> HasId(ws, id)
    ensures !r.1 ==> r.0 == ws
    ensures r.1 ==> |r.0| == |ws| - 1
                    && r.0 == ws[..FindIndex(ws, id).value] + ws[FindIndex(ws, id).value + 1..]
  {
    match FindIndex(ws, id)
    case None => (ws, false)
    case Some(i) => (ws[..i] + ws[i + 1..], true)
  }

  /** `get`: the first writing with `id`, or null. */
  function Get(ws: seq<Writing>, id: string): (r: Option<Writing>)
    ensures r.None? <==> !HasId(ws, id)
    ensures r.Some? ==> r.value.id == id && r.value in ws
    ensures r.Some? ==> exists i | 0 <= i < |ws| :: ws[i] == r.value && forall j | 0 <= j < i :: ws[j].id != id
  {
    match FindIndex(ws, id)
    case None => None
    case Some(i) => Some(ws[i])
  }

  /** A writing created under `id` is what `get(id)` then finds, because it
      is the first of the list. */
  lemma CreateThenGet(ws: seq<Writing>, d: Draft, id: string, c: string, u: string)
    ensures Get(Create(ws, d, id, c, u).0, id) == Some(Create(ws, d, id, c, u).1)
  {
  }

  /** Deleting the identifier just created gives back the old list. */
  lemma CreateThenDelete(ws: seq<Writing>, d: Draft, id: string, c: string, u: string)
    ensures Delete(Create(ws, d, id, c, u).0, id) == (ws, true)
  {
    var r := Create(ws, d, id, c, u).0;
    assert FindIndex(r, id) == Some(0);
    assert r[..0] + r[1..] == ws;
  }

  /** `get` after a successful `update` returns the updated record. */
  lemma {:induction false} UpdateThenGet(ws: seq<Writing>, id: string, p: Patch, u: string)
    requires HasId(ws, id)
    ensures Get(Update(ws, id, p, u).0, id) == Update(ws, id, p, u).1
  {
    var i := FindIndex(ws, id).value;
    var w' := Apply(ws[i], p, u);
    var ws' := ws[i := w'];
    assert Update(ws, id, p, u) == (ws', Some(w'));
    assert ws'[i].id == id;
    FindIndexFirst(ws', id, i);
  }

  /** The first position whose id matches is what `FindIndex` finds. */
  lemma {:induction false} FindIndexFirst(ws: seq<Writing>, id: string, i: nat)
    requires i < |ws| && ws[i].id == id
    requires forall j | 0 <= j < i :: ws[j].id != id
    ensures FindIndex(ws, id) == Some(i)
    decreases i
  {
    if i > 0 {
      FindIndexFirst(ws[1..], id, i - 1);
    }
  }

  /** Creating under a fresh identifier keeps identifiers unique. */
  lemma CreateKeepsUnique(ws: seq<Writing>, d: Draft, id: string, c: string, u: string)
    requires UniqueIds(ws) && !HasId(ws, id)
    ensures UniqueIds(Create(ws, d, id, c, u).0)
  {
    var r := Create(ws, d, id, c, u).0;
    forall i, j | 0 <= i < j < |r|
      ensures r[i].id != r[j].id
    {
      if i == 0 {
        assert r[j] == ws[j - 1];
      } else {
        assert r[i] == ws[i - 1] && r[j] == ws[j - 1];
      }
    }
  }

  /** Updating keeps every identifier where it was. */
  lemma UpdateKeepsIds(ws: seq<Writing>, id: string, p: Patch, u: string)
    ensures |Update(ws, id, p, u).0| == |ws|
    ensures forall j | 0 <= j < |ws| :: Update(ws, id, p, u).0[j].id == ws[j].id
  {
  }

  /** With unique identifiers, a deleted identifier is gone for good. */
  lemma {:induction false} DeleteRemovesId(ws: seq<Writing>, id: string)
    requires UniqueIds(ws)
    ensures !HasId(Delete(ws, id).0, id)
    ensures UniqueIds(Delete(ws, id).0)
  {
    var r := Delete(ws, id).0;
    if HasId(ws, id) {
      var i := FindIndex(ws, id).value;
      assert forall k | 0 <= k < |r| :: r[k] == if k < i then ws[k] else ws[k + 1];
      forall k | 0 <= k < |r|
        ensures r[k].id != id
      {
        if k >= i {
          assert ws[k + 1].id != ws[i].id;
        }
      }
    }
  }

  /** The filter state: 'all' or one category, 'all' or one visibility. */
  datatype CategoryFilter = AnyCategory | OnlyCategory(category: Category)
  datatype VisibilityFilter = AnyVisibility | OnlyVisibility(visibility: Visibility)
  datatype Filters = Filters(category: CategoryFilter, visibility: VisibilityFilter)

  predicate Matches(f: Filters, w: Writing) {
    && (f.category.AnyCategory? || w.category == f.category.category)
    && (f.visibility.AnyVisibility? || w.visibility == f.visibility.visibility)
  }

  predicate IsPublic(w: Writing) {
    w.visibility == Public
  }

  predicate IsPrivate(w: Writing) {
    w.visibility == Private
  }

  /** `getFiltered`: the writings matching both filters, in list order. */
  function GetFiltered(ws: seq<Writing>, f: Filters): (r: seq<Writing>)
    ensures forall i | 0 <= i < |r| :: Matches(f, r[i]) && r[i] in ws
    ensures forall i | 0 <= i < |ws| && Matches(f, ws[i]) :: ws[i] in r
  {
    Filter(w => Matches(f, w), ws)
  }

  /** The filters 'all'/'all' return the whole list. */
  lemma GetFilteredAll(ws: seq<Writing>)
    ensures GetFiltered(ws, Filters(AnyCategory, AnyVisibility)) == ws
  {
    FilterAll(w => Matches(Filters(AnyCategory, AnyVisibility), w), ws);
  }

  /** The filtered list keeps the list order and every occurrence of each
      matching writing. */
  lemma GetFilteredExact(ws: seq<Writing>, f: Filters, w: Writing)
    ensures IsSubseq(GetFiltered(ws, f), ws)
    ensures multiset(GetFiltered(ws, f))[w] == if Matches(f, w) then multiset(ws)[w] else 0
  {
    FilterIsSubseq(w => Matches(f, w), ws);
    FilterCount(w => Matches(f, w), ws, w);
  }

  /** `getPublic`: the public writings, in list order. */
  function GetPublic(ws: seq<Writing>): (r: seq<Writing>)
    ensures forall i | 0 <= i < |r| :: IsPublic(r[i]) && r[i] in ws
    ensures forall i | 0 <= i < |ws| && IsPublic(ws[i]) :: ws[i] in r
  {
    Filter(IsPublic, ws)
  }

  /** The public projection is the filter view "all categories, public". */
  lemma GetPublicIsFiltered(ws: seq<Writing>)
    ensures GetPublic(ws) == GetFiltered(ws, Filters(AnyCategory, OnlyVisibility(Public)))
  {
    FilterExt(IsPublic, w => Matches(Filters(AnyCategory, OnlyVisibility(Public)), w), ws);
  }

  /** The counts shown on the profile page. */
  datatype Counts = Counts(total: nat, publicCount: nat, privateCount: nat)

  /** Profile statistics: the public count is the size of the public
      projection, the private count is what remains of the total. */
  function Stats(ws: seq<Writing>): (r: Counts)
    ensures r.total == |ws| && r.publicCount == |GetPublic(ws)|
    ensures r.privateCount == |Filter(IsPrivate, ws)|
    ensures r.publicCount + r.privateCount == r.total
  {
    FilterSplit(IsPublic, IsPrivate, ws);
    Counts(|ws|, |GetPublic(ws)|, |ws| - |GetPublic(ws)|)
  }
}
