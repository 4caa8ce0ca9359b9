# Chunk filter of the document-details view

This project models the chunk list of the dashboard's document-details page
(`ChunksViewer`). A document's chunks each have an id, a `type` field and a
text `content`. The viewer narrows them with two controls:

- a category button (`all`, `text`, `image` or `table`). Under `all` every
  chunk passes. Otherwise the chunk's `type` must be an array that contains
  the button's tag.
- a search box. The lower-cased content must contain the lower-cased query
  as a contiguous substring. The empty query matches everything.

The header then reads "N of M chunks". The body shows a spinner while
loading, "No chunks found" when nothing survives, and otherwise the
surviving chunks in input order.

Three modules:

- `TextMatch`: ASCII lower-casing (`Lower`) and substring containment
  (`Includes`). `Includes` is proved equal to an independent definition:
  some position where the pattern occurs (`OccursAt`).
- `ArrayFilter`: `Array.prototype.filter` over an immutable list, for any
  callback. It carries the ordering facts: kept positions, uniqueness of the
  ordered selection, length bounds, idempotence and commutation.
- `ChunksViewer`: the `Chunk` datatype and the `type` guard
  (`Tags(seq<string>) | NotArray`, which stands for `Array.isArray`). It also
  holds the category and search conditions, `FilterChunks`, and the rendered
  `View`.

## Model

| member | source | states |
|---|---|---|
| TextMatch.LowerChar | src/components/projects/document-details/ChunksViewer.tsx:24-26 | lower-casing of one character, restricted to ASCII: an upper-case letter becomes its lower-case letter, every other character is unchanged, and the result is never upper-case ASCII |
| TextMatch.Lower | src/components/projects/document-details/ChunksViewer.tsx:24-26 | lower-casing keeps the length, maps each character independently, and leaves no upper-case ASCII letter |
| TextMatch.LowerIdempotent | src/components/projects/document-details/ChunksViewer.tsx:24-26 | lower-casing an already lower-cased string changes nothing |
| TextMatch.Includes | src/components/projects/document-details/ChunksViewer.tsx:24-26 | `includes` is true exactly when the pattern occurs at some position of the text |
| ArrayFilter.Filter | src/components/projects/document-details/ChunksViewer.tsx:20-28 | every kept element is from the input and passes the callback; every passing input element is kept; the result is no longer than the input |
| ArrayFilter.KeptIndices | src/components/projects/document-details/ChunksViewer.tsx:20-28 | the positions of the passing elements, strictly increasing, with every passing position present |
| ArrayFilter.FilterSelectsKeptIndices | src/components/projects/document-details/ChunksViewer.tsx:20-28 | the k-th result element is the input element at the k-th passing position, so order is kept and nothing is duplicated or invented |
| ArrayFilter.SelectionDeterminesFilter | src/components/projects/document-details/ChunksViewer.tsx:20-28 | any list that selects exactly the passing positions in increasing order equals the filter result |
| ArrayFilter.FilterKeepsPassingList | src/components/projects/document-details/ChunksViewer.tsx:20-28 | a list whose every element passes is returned unchanged |
| ArrayFilter.FilterLengthBounds | src/components/projects/document-details/ChunksViewer.tsx:20-28 | the result is at most as long as the input, and exactly as long iff every element passes |
| ArrayFilter.FilterEmptyIffNoneKept | src/components/projects/document-details/ChunksViewer.tsx:20-28 | the result is empty iff no input element passes |
| ArrayFilter.FilterIdempotent | src/components/projects/document-details/ChunksViewer.tsx:20-28 | filtering a filtered list again with the same callback returns it unchanged |
| ArrayFilter.FilterCommutes | src/components/projects/document-details/ChunksViewer.tsx:20-28 | two filters applied in sequence give the same list in either order |
| ArrayFilter.FilterExtensional | src/components/projects/document-details/ChunksViewer.tsx:20-28 | callbacks that agree on every element of the list give the same result |
| ChunksViewer.MatchesFilter | src/components/projects/document-details/ChunksViewer.tsx:21-23 | the condition as written: `all` always passes; a chunk whose `type` is not an array passes only `all`; otherwise the chunk passes iff one of its tags equals the filter's tag |
| ChunksViewer.MatchesSearch | src/components/projects/document-details/ChunksViewer.tsx:24-26 | the condition as written: the chunk passes iff the lower-cased query occurs at some position of the lower-cased content; an empty query always passes and a query longer than the content never does |
| ChunksViewer.Keep | src/components/projects/document-details/ChunksViewer.tsx:21-27 | the condition as written: a chunk passes iff it passes both the category and the search condition; under `all` only the search decides, and a non-array `type` never passes another filter |
| ChunksViewer.FilterChunks | src/components/projects/document-details/ChunksViewer.tsx:20-28 | `chunks.filter` with the callback `Selector`, which applies `Keep`; soundness: every shown chunk comes from the input, matches the category and contains the folded query; completeness: every input chunk that matches both is shown |
| ChunksViewer.FilterChunksIsOrderedSelection | src/components/projects/document-details/ChunksViewer.tsx:20-28 | the shown list holds the input chunks at exactly the positions that pass both conditions, one each, in input order |
| ChunksViewer.FilterPreservesDistinctIds | src/components/projects/document-details/ChunksViewer.tsx:87-89 | if the input chunk ids are distinct, the ids of the shown chunks used as list keys are distinct too |
| ChunksViewer.ShownCountBounds | src/components/projects/document-details/ChunksViewer.tsx:37 | in "N of M chunks", N is at most M, and N equals M iff every chunk passes |
| ChunksViewer.AllWithEmptyQueryIsIdentity | src/components/projects/document-details/ChunksViewer.tsx:21-26 | with the `all` filter and an empty query, the shown list is the input list |
| ChunksViewer.FilterChunksIdempotent | src/components/projects/document-details/ChunksViewer.tsx:20-28 | filtering the shown list again with the same filter and query returns it unchanged |
| ChunksViewer.CategoryNarrowsAll | src/components/projects/document-details/ChunksViewer.tsx:21-23 | for a fixed query, a category's list is the `all` list narrowed by that category |
| ChunksViewer.NotArrayOnlyUnderAll | src/components/projects/document-details/ChunksViewer.tsx:21-23 | a chunk whose `type` is not an array is shown iff the filter is `all` and its content matches the query |
| ChunksViewer.SameFoldedQuerySameResult | src/components/projects/document-details/ChunksViewer.tsx:24-26 | two queries that lower-case to the same string show the same chunks |
| ChunksViewer.QueryCaseIrrelevant | src/components/projects/document-details/ChunksViewer.tsx:24-26 | a query shows the same chunks as its lower-cased form |
| ChunksViewer.Render | src/components/projects/document-details/ChunksViewer.tsx:37-87 | the header shows the length of the filtered list against the total number of chunks; the spinner shows iff loading; the empty state shows iff not loading and no chunk passes; otherwise the body lists the filtered list itself, non-empty and holding exactly the passing chunks |

## Left out

- TextMatch.LowerChar, TextMatch.Lower: lower-casing folds only the ASCII letters `A`-`Z`. JavaScript's
  `toLowerCase` applies full Unicode case mapping, which can also change the
  length of a string.
- Strings are sequences of Unicode scalar values. JavaScript strings are
  UTF-16 code units, so `includes` can match inside a surrogate pair; that
  difference is not modelled.
- Chunks are untyped (`any`) in the source. The model assumes `content` is
  always a string; a chunk without string content makes the source throw,
  and that case is not modelled. The `page` and `chars` fields are displayed
  only, so they are not modelled.
- The category button is cast to the filter state with `as any`. Only the
  four button values are modelled.
- React state (`useState`), button and tag styling, the button label
  capitalisation and the selected-chunk highlight are presentation only.
  `onSelectChunk` is a callback into code outside this component and is left
  out.
- The HTTP wrapper in `src/lib/api/index.ts`, the interfaces in
  `src/lib/types.ts` and the overlay modal in `Modal.tsx` are network I/O,
  declarations without behaviour, or DOM handling.
- The chat page's optimistic message send, the project pages' data loading,
  uploads and settings editing are outside `ChunksViewer` and are not
  modelled.
