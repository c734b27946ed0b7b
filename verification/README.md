# Isaiah writing app: a verified model of its core logic

Isaiah is a client-only, single-author writing app (`app.js`). Its core logic is modelled here in Dafny as pure functions over immutable values:

- the writing collection (`Writings`): create, update, delete, get, filtered views, the public-only view and the profile counts (module `Writings`);
- the excerpt deriver `createExcerpt` (module `Excerpt`). Each of its five regex passes is modelled exactly, as the left-to-right scan the regex engine performs. The helpers in `Text` give JavaScript's `\s` class and `trim`;
- the markdown renderer `Markdown.parse`:
  - module `HtmlEscape` covers the escape chain;
  - module `Markdown` covers the tag-synthesising passes;
  - module `MarkdownSafety` covers what the output can contain;
  - module `MarkdownPlain` gives the reference behaviour on text without markdown syntax;
- the editor's pure rules (module `Editor`): the tag-input guard, tag removal and the `insertText` splice.

The collection is a `seq<Writing>`, newest first. An operation returns the new sequence instead of mutating `state.writings`. The identifier (`crypto.randomUUID`) and the timestamps (`new Date().toISOString()`) are parameters. Persistence to `localStorage` happens after each mutation in the app. It is a side effect and is not modelled.

After the escape pass, the renderer's intermediate HTML is modelled as a sequence of tokens. Each token is a character, an opening tag or a closing tag. The escape pass removes every `<` and `>` of the input, so a later regex can only see a synthesised tag whole. A pattern like `\*\*\*` or `\n` cannot match inside a tag. A pattern like `<li>` or `<p></p>` can only match whole tags. Each pass therefore acts on tokens as its regex acts on the characters they spell. `Markdown.Flatten` spells the tokens out as the final string.

Notes on the behaviour of `app.js`, which the model follows:

- Deriving an excerpt is not idempotent. `Excerpt.DeriveNotIdempotent` proves that `#** ** z` gives `#  z`, and that `#  z` gives `z`.
- `parse` has blockquote rules, but it never renders a blockquote. The `^> ` pass runs after `>` has become `&gt;`. `MarkdownSafety.QuotePassIsDead` and `MarkdownSafety.RenderHasNoScriptOrBlockquote` prove this.
- Headings are wrapped in a paragraph: the whole text is wrapped in `<p>…</p>`, headings included. So `# Hello\n\nWorld` becomes `<p><h1>Hello</h1></p><p>World</p>`. This follows from the modelled chain; there is no lemma for this one input.
- `app.js` has no access control, no roles or authors, no allow-list sanitiser and no tag de-duplication on create, so none is modelled.
- The cap of five tags is enforced only by the editor's Enter handler (`Editor.AddTag`). `Writings.create` stores whatever tags it is given.

## Model

| member | source | states |
|---|---|---|
| Writings.FindIndex | app.js:114 | `findIndex`: yields nothing exactly when no writing has the id; otherwise the index of the first writing with it |
| Writings.Create | app.js:95-110 | the new writing is at index 0 and the old list follows it unchanged; the defaults are 'Sans titre', `[]`, 'other' and 'private'; the excerpt is derived from the content |
| Writings.Apply | app.js:116-122 | the updated record keeps id and createdAt; every field absent from the patch keeps its old value; the excerpt comes from the patch content if that is non-empty, else from the old content |
| Writings.Update | app.js:113-127 | an unknown id returns null and leaves the list unchanged; otherwise only the first matching index changes, the length is kept, and the new record is returned |
| Writings.Delete | app.js:130-136 | returns true exactly when the id is present; removes exactly the first match, keeping the others in order; an unknown id changes nothing |
| Writings.Get | app.js:139-141 | `find`: null exactly when the id is absent; otherwise the first writing of the list with that id |
| Writings.CreateThenGet | app.js:95-110 | `get` finds a just-created writing under its id |
| Writings.CreateThenDelete | app.js:95-136 | deleting the id just created restores the previous list |
| Writings.UpdateThenGet | app.js:113-141 | after a successful update, `get` returns the updated record |
| Writings.FindIndexFirst | app.js:114 | an index whose id matches, with no earlier match, is the one `findIndex` returns |
| Writings.CreateKeepsUnique | app.js:95-110 | creating under a fresh id keeps ids unique |
| Writings.UpdateKeepsIds | app.js:113-127 | update changes no writing's id and keeps the length |
| Writings.DeleteRemovesId | app.js:130-136 | with unique ids, the deleted id no longer occurs and ids stay unique |
| Writings.GetFiltered | app.js:143-149 | every result matches both filters and comes from the list; every matching writing is kept |
| Writings.GetFilteredAll | app.js:143-149 | the filters 'all'/'all' return the whole list |
| Writings.GetFilteredExact | app.js:143-149 | the filtered view is an order-preserving subsequence holding each matching writing as often as the list does |
| Writings.GetPublic | app.js:151-153 | exactly the public writings of the list |
| Writings.GetPublicIsFiltered | app.js:143-153 | the public view equals the filter view 'all categories, public' |
| Writings.Stats | app.js:423-425 | total, public and private counts: the private count, computed as total minus public, equals the number of private writings |
| Text.TrimStart | app.js:163 | removes exactly the leading whitespace |
| Text.TrimEnd | app.js:163 | removes exactly the trailing whitespace |
| Text.Trim | app.js:163 | `trim`: the result is a slice of the input with non-space ends, and everything cut off is whitespace |
| Text.TrimTrimmed | app.js:163 | trimming an already trimmed string returns it |
| Text.Lower | app.js:615 | `toLowerCase` on ASCII: the length is kept, only capitals change, the result is lower case, and lower-case input is returned unchanged |
| Text.LowerKeepsTrimmed | app.js:615 | lower-casing a trimmed string keeps it trimmed |
| Excerpt.StripHeadingMarks | app.js:158 | `/#{1,6}\s/g` removal: never lengthens the text and only keeps input characters |
| Excerpt.StripBold | app.js:159 | `**x**` unwrapping: never lengthens the text and only keeps input characters |
| Excerpt.StripItalic | app.js:160 | `*x*` unwrapping: never lengthens the text and only keeps input characters |
| Excerpt.StripMarkers | app.js:161-162 | removal of `>` or `-`/`*` followed by whitespace: never lengthens the text and only keeps input characters |
| Excerpt.HeadingMarksAbsent | app.js:158 | text without '#' passes the heading pass unchanged |
| Excerpt.EmphasisAbsent | app.js:159-160 | text without '*' passes both emphasis passes unchanged |
| Excerpt.MarkersAbsent | app.js:161-162 | text without marker characters passes the marker pass unchanged |
| Excerpt.Plain | app.js:157-163 | the stripped text is no longer than the content, is trimmed, and holds only characters of the content |
| Excerpt.Truncate | app.js:165 | longer than n: the first n characters then '...', of length n+3; otherwise the text itself |
| Excerpt.Derive | app.js:155-165 | `createExcerpt(content)`: at most 153 characters, each a character of the content or a dot of the ellipsis; its exact shape is `Excerpt.DeriveShape` |
| Excerpt.DeriveShape | app.js:155-165 | an excerpt has at most 153 characters; it is the plain text when that fits in 150, else its first 150 characters and '...' |
| Excerpt.ShortContentNotTruncated | app.js:155-165 | content of at most 150 characters is never truncated, and its excerpt is trimmed |
| Excerpt.DeriveNotIdempotent | app.js:155-165 | re-deriving an excerpt can change it: `#** ** z` gives `#  z`, which gives `z` |
| HtmlEscape.Escape | app.js:179-181 | the escape chain writes only the input's characters and those of `&amp;`, `&lt;`, `&gt;`; its charwise form, the absence of angle brackets and the round trip are the three lemmas below |
| HtmlEscape.EscapeIsCharwise | app.js:179-181 | the three ordered replacements escape each character once: '&' is never double-escaped |
| HtmlEscape.EscapedHasNoAngles | app.js:179-181 | after escaping no '<' and no '>' remains |
| HtmlEscape.UnescapeEscape | app.js:179-181 | escaping loses nothing: decoding `&amp;`, `&lt;`, `&gt;` gives the input back |
| HtmlEscape.EscapeFirst | app.js:179-181 | escaping keeps the first character, or replaces it by the '&' of its reference |
| Markdown.ApplyRule | app.js:183-196 | a line pass leaves every token of the line or adds only its own tag |
| Markdown.MapLines | app.js:183-196 | a multiline pass leaves every token of the text or adds only its own tag |
| Markdown.FindClose | app.js:187-189 | the lazy `(.+?)` stops at the nearest closing stars with no line terminator before them; it fails only when every closing run is behind a terminator |
| Markdown.MatchAt | app.js:187-189 | an emphasis match at the start: the opening stars, non-empty content free of line terminators, and the nearest closing stars inside the text; no match exactly when the opening stars, a first content character or a reachable closing run is missing |
| Markdown.Emphasize | app.js:187-189 | an emphasis pass leaves every token of the text or adds only its own strong/em tags |
| Markdown.RunEnd | app.js:208 | a run of `<li>…</li>` items ends inside the text, starts with an opening item tag and ends with a closing one |
| Markdown.QuotesToBreaks | app.js:212 | position by position, every blockquote tag of a run becomes `<br>` and every other token stays |
| Markdown.TrimBreaks | app.js:212 | the result is the run minus at most one `<br>` at each end; a leading `<br>` is always dropped, both are dropped when both ends are `<br>`, and a run with neither is unchanged |
| Markdown.Merge | app.js:208-213 | merging a run adds only `<ul>`/`</ul>`, or only blockquote and `<br>` tags |
| Markdown.GroupRuns | app.js:208-214 | grouping leaves every token of the text or adds only the wrapper's tags |
| Markdown.LinePasses | app.js:183-196 | the header, emphasis, blockquote, list and rule passes keep every token or add one of their tags, never a character; safety is `MarkdownSafety.LinePassesSafe` |
| Markdown.Paragraphs | app.js:198-205 | paragraph folding, line breaks, wrapping and empty-paragraph removal add only `<p>`, `</p>` and `<br>` tags |
| Markdown.Flatten | app.js:216 | every character of the HTML is a character token of the sequence or a letter of a tag |
| Markdown.Render | app.js:174-217 | `parse`: every output character is a character of the text, of an entity reference, or of a synthesised tag; the tag discipline is `MarkdownSafety.RenderTagged`, and plain text is `MarkdownPlain.RenderPlain` |
| MarkdownSafety.QuotePassIsDead | app.js:181-191 | with no '>' left after escaping, the `^> (.+)$` pass returns its input |
| MarkdownSafety.GroupRunsAbsent | app.js:208-214 | with no opening tag of the run, grouping returns its input, so the blockquote merge never fires |
| MarkdownSafety.LinePassesSafe | app.js:183-196 | the header, emphasis, list and rule passes keep the text free of raw angle brackets and blockquote tags |
| MarkdownSafety.BlockPassesSafe | app.js:198-214 | paragraph folding, `<p></p>` removal and grouping keep that property |
| MarkdownSafety.EscapedSafe | app.js:179-181 | the escaped input holds no raw angle bracket |
| MarkdownSafety.RenderTagged | app.js:174-216 | empty input gives ''; in every output each '<' starts a p, h1, h2, h3, strong, em, li, ul, hr or br tag |
| MarkdownSafety.RenderHasNoScriptOrBlockquote | app.js:174-216 | no output of `parse` contains `<script` or `<blockquote` |
| MarkdownPlain.RenderPlain | app.js:174-216 | a non-empty single line with no '*', no line terminator and a first character other than '#' or '-' (for example `a & b`) renders as `<p>` + its escaped form + `</p>`, and unescaping that paragraph gives the text back |
| Editor.Normalize | app.js:615 | the normalised tag is trimmed and lower case |
| Editor.AddTag | app.js:615-621 | appends the normalised tag exactly when it is non-empty, at most 20 characters, new, and the list has fewer than 5 tags; otherwise the list is unchanged |
| Editor.AddTagKeepsValid | app.js:615-621 | one Enter step of the pure rule: a list of at most 5 distinct, non-empty, trimmed, lower-case tags of at most 20 characters stays so after adding |
| Editor.AddTagIdempotent | app.js:615-621 | entering the same text twice adds it once |
| Editor.RemoveTag | app.js:360 | the filter on the given tag: that tag is gone; every other tag is kept as many times as it occurred, and nothing new appears |
| Editor.RemoveTagKeepsOrder | app.js:360 | the remaining tags keep their order |
| Editor.RemoveTagKeepsValid | app.js:360 | removal keeps the list valid |
| Editor.RemoveUndoesAdd | app.js:360-621 | on the pure rules, removing a tag just added gives back the previous list |
| Editor.InsertText | app.js:518-528 | the new value is the prefix, `before`, the selection, `after` and the suffix; the text outside the selection is unchanged; the cursor is just after `after` |
| Editor.InsertTextUndo | app.js:518-528 | cutting `before` and `after` out of the new value restores the old value |

## Left out

- `Storage` and `localStorage`/JSON (app.js:46-88) are I/O. The model does not persist anything.
- `crypto.randomUUID` and `new Date().toISOString()` are parameters. Their values are not constrained; `createdAt` and `updatedAt` come from two separate calls.
- DOM rendering and wiring are left out: the `UI` methods, `escapeHtml`, `formatDate`, the theme toggle, toasts, modals, event listeners and the toolbar `actions` table. `getCurrentTags` reads tags back from the DOM. The model takes the list it would return as the input of `Editor.AddTag` and `Editor.RemoveTag`.
- Writings.Update: the patch has no `id` and no `createdAt` field, and no extra keys. In the app, `...data` could overwrite either field or add any key, but no caller passes one; the model keeps both.
- Writings.Create: categories are an enumeration. The app stores whatever string the category select gives.
- Text.Lower: only ASCII capitals are lowered. The app's `toLowerCase` follows full Unicode case mapping.
- Excerpt.Truncate: lengths are counted in characters, not UTF-16 code units. For text outside the Basic Multilingual Plane, `substring(0, 150)` can cut differently, or split a surrogate pair.
- Editor.AddTag: the 20-character limit is counted in characters, not UTF-16 code units. The model's tag list is what `getCurrentTags` (app.js:366-369) returns, and that differs from the tags rendered for tags containing `×`. `getCurrentTags` deletes the first `×` of the tag's text, not the remove button's, so `a×` reads back as `a` followed by the button's whitespace and `×`, and a 20-character tag ending in `×` reads back longer than 20. So `Editor.AddTagKeepsValid` is a fact about one Enter step of the pure rule, not an invariant of the app's tag list.
- Editor.RemoveTag: the removed `tag` is the model's input, which in the app is `btn.dataset.tag` (app.js:360). `renderTags` writes it into a double-quoted attribute through `escapeHtml` (app.js:352, 497-501), which does not escape `"`, so for a tag `a"b` the button carries `a` and its click removes a tag `a` instead. A tag read back wrongly by `getCurrentTags` (above) is matched by nothing. `Editor.RemoveTag` and `Editor.RemoveUndoesAdd` therefore describe the filter on the intended tag, and do not hold in the app for tags containing `"` or `×`.
- Editor.InsertText: offsets and lengths are counted in characters. `selectionStart`, `selectionEnd`, `substring` and `.length` count UTF-16 code units, so the positions differ for text outside the Basic Multilingual Plane.
- Markdown.Render: the input is a string. `parse(null)` and `parse(undefined)` also return '' in the app.
- Markdown.MapLines: line terminators are `\n`, `\r`, U+2028 and U+2029, each on its own. So `\r\n` delimits an empty line between them, as JavaScript's `^`/`$` under the `m` flag do.
