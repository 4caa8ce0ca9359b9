/** The chunk list of the document-details view: a category filter and a
    case-insensitive search narrowing a document's chunks, the "N of M
    chunks" header and the loading / empty / list branch of the body. */
module ChunksViewer {
  import opened TextMatch
  import opened ArrayFilter

  /** The `type` field of a chunk. The view only trusts it when it is an
      array of tag strings; any other value is `NotArray`. */
  datatype ChunkType = Tags(tags: seq<string>) | NotArray

  datatype Chunk = Chunk(id: string, kind: ChunkType, content: string)

  /** The four filter buttons of the header. */
  datatype Category = All | Text | Image | Table

  /** The string a filter button stands for, compared against chunk tags. */
  function TagOf(c: Category): string {
    match c
    case All => "all"
    case Text => "text"
    case Image => "image"
    case Table => "table"
  }

  /** The category condition: everything passes `All`; otherwise the chunk's
      `type` must be an array that contains the filter's tag. */
  predicate MatchesFilter(filter: Category, chunk: Chunk): (r: bool)
    ensures filter == All ==> r
    ensures chunk.kind.NotArray? ==> (r <==> filter == All)
    ensures filter != All && chunk.kind.Tags? ==>
      (r <==> exists j :: 0 <= j < |chunk.kind.tags| && chunk.kind.tags[j] == TagOf(filter))
  {
    filter == All || (chunk.kind.Tags? && TagOf(filter) in chunk.kind.tags)
  }

  /** The search condition: the folded query is a substring of the folded content. */
  predicate MatchesSearch(query: string, chunk: Chunk): (r: bool)
    ensures r <==> exists i :: OccursAt(Lower(chunk.content), Lower(query), i)
    ensures |query| == 0 ==> r
    ensures |query| > |chunk.content| ==> !r
  {
    FoldedIncludes(chunk.content, query);
    IncludesEmpty(Lower(chunk.content));
    Includes(Lower(chunk.content), Lower(query))
  }

  /** `Includes` on the folded strings, restated as an occurrence of the
      folded query in the folded content. */
  lemma FoldedIncludes(content: string, query: string)
    ensures Includes(Lower(content), Lower(query)) <==>
      exists i :: OccursAt(Lower(content), Lower(query), i)
  {
  }

  /** A chunk survives when it passes both conditions. */
  predicate Keep(filter: Category, query: string, chunk: Chunk): (r: bool)
    ensures r <==> MatchesFilter(filter, chunk) && MatchesSearch(query, chunk)
    ensures filter == All ==> (r <==> MatchesSearch(query, chunk))
    ensures chunk.kind.NotArray? && filter != All ==> !r
  {
    MatchesFilter(filter, chunk) && MatchesSearch(query, chunk)
  }

  /** The filter callback handed to `chunks.filter`. */
  function Selector(filter: Category, query: string): Chunk -> bool {
    c => Keep(filter, query, c)
  }

  /** The chunks shown for a filter and a query: every chunk that passes,
      none that does not, in input order. */
  function FilterChunks(chunks: seq<Chunk>, filter: Category, query: string): (r: seq<Chunk>)
    ensures |r| <= |chunks|
    ensures forall k :: 0 <= k < |r| ==> r[k] in chunks && Keep(filter, query, r[k])
    ensures forall i :: 0 <= i < |chunks| && Keep(filter, query, chunks[i]) ==> chunks[i] in r
  {
    Filter(chunks, Selector(filter, query))
  }

  /** The shown chunks are the input chunks at the passing positions, in
      input order, each once. That no other list has this shape is
      `ArrayFilter.SelectionDeterminesFilter`. */
  lemma FilterChunksIsOrderedSelection(chunks: seq<Chunk>, filter: Category, query: string)
    ensures var r := FilterChunks(chunks, filter, query);
      var idx := KeptIndices(chunks, Selector(filter, query));
      && |r| == |idx|
      && (forall k :: 0 <= k < |idx| ==> idx[k] < |chunks| && r[k] == chunks[idx[k]])
      && (forall k, l :: 0 <= k < l < |idx| ==> idx[k] < idx[l])
      && (forall i :: 0 <= i < |chunks| ==> (i in idx <==> Keep(filter, query, chunks[i])))
  {
    var idx := KeptIndices(chunks, Selector(filter, query));
    FilterSelectsKeptIndices(chunks, Selector(filter, query));
    forall i | 0 <= i < |chunks| && i in idx
      ensures Keep(filter, query, chunks[i])
    {
      var k :| 0 <= k < |idx| && idx[k] == i;
    }
  }

  /** Chunks are rendered keyed by id: when the input ids are distinct, so
      are the ids of the shown list. */
  lemma FilterPreservesDistinctIds(chunks: seq<Chunk>, filter: Category, query: string)
    requires forall i, j :: 0 <= i < j < |chunks| ==> chunks[i].id != chunks[j].id
    ensures var r := FilterChunks(chunks, filter, query);
      forall k, l :: 0 <= k < l < |r| ==> r[k].id != r[l].id
  {
    var r := FilterChunks(chunks, filter, query);
    var idx := KeptIndices(chunks, Selector(filter, query));
    FilterSelectsKeptIndices(chunks, Selector(filter, query));
    forall k, l | 0 <= k < l < |r|
      ensures r[k].id != r[l].id
    {
      assert r[k] == chunks[idx[k]] && r[l] == chunks[idx[l]];
      assert idx[k] < idx[l];
    }
  }

  /** The header's "N of M chunks": N never exceeds M, and equals M exactly
      when every chunk passes. */
  lemma ShownCountBounds(chunks: seq<Chunk>, filter: Category, query: string)
    ensures |FilterChunks(chunks, filter, query)| <= |chunks|
    ensures |FilterChunks(chunks, filter, query)| == |chunks| <==>
      forall i :: 0 <= i < |chunks| ==> Keep(filter, query, chunks[i])
  {
    FilterLengthBounds(chunks, Selector(filter, query));
  }

  /** With the "all" filter and an empty search box every chunk is shown. */
  lemma AllWithEmptyQueryIsIdentity(chunks: seq<Chunk>)
    ensures FilterChunks(chunks, All, "") == chunks
  {
    forall i | 0 <= i < |chunks|
      ensures Selector(All, "")(chunks[i])
    {
      IncludesEmpty(Lower(chunks[i].content));
    }
    FilterKeepsPassingList(chunks, Selector(All, ""));
  }

  /** Filtering the shown list again with the same filter and query changes nothing. */
  lemma FilterChunksIdempotent(chunks: seq<Chunk>, filter: Category, query: string)
    ensures var r := FilterChunks(chunks, filter, query);
      FilterChunks(r, filter, query) == r
  {
    FilterIdempotent(chunks, Selector(filter, query));
  }

  /** Choosing a category narrows the "all" view for the same query. */
  lemma CategoryNarrowsAll(chunks: seq<Chunk>, filter: Category, query: string)
    ensures FilterChunks(chunks, filter, query)
         == FilterChunks(FilterChunks(chunks, All, query), filter, query)
  {
    var s := Selector(filter, query);
    var a := Selector(All, query);
    var both := FilterChunks(chunks, All, query);
    assert forall k :: 0 <= k < |both| ==> a(both[k]);
    FilterCommutes(chunks, a, s);
    var narrowed := Filter(chunks, s);
    assert forall k :: 0 <= k < |narrowed| ==> a(narrowed[k]);
    FilterKeepsPassingList(narrowed, a);
  }

  /** A chunk whose `type` is not an array is shown only under "all", and
      under "all" it is shown exactly when its content matches. */
  lemma NotArrayOnlyUnderAll(chunks: seq<Chunk>, filter: Category, query: string, c: Chunk)
    requires c in chunks
    requires c.kind.NotArray?
    ensures c in FilterChunks(chunks, filter, query) <==> filter == All && MatchesSearch(query, c)
  {
  }

  /** Queries that fold to the same string show the same chunks. */
  lemma SameFoldedQuerySameResult(chunks: seq<Chunk>, filter: Category, q1: string, q2: string)
    requires Lower(q1) == Lower(q2)
    ensures FilterChunks(chunks, filter, q1) == FilterChunks(chunks, filter, q2)
  {
    FilterExtensional(chunks, Selector(filter, q1), Selector(filter, q2));
  }

  /** The case of the typed query is irrelevant: it filters like its lower-case form. */
  lemma QueryCaseIrrelevant(chunks: seq<Chunk>, filter: Category, query: string)
    ensures FilterChunks(chunks, filter, query) == FilterChunks(chunks, filter, Lower(query))
  {
    LowerIdempotent(query);
    SameFoldedQuerySameResult(chunks, filter, query, Lower(query));
  }

  /** What the body of the viewer shows. */
  datatype Body = Spinner | NoChunksFound | ChunkList(items: seq<Chunk>)

  /** The header counts ("shown of total chunks") and the body. */
  datatype View = View(shown: nat, total: nat, body: Body)

  /** The rendered view: the header always counts the filtered list against
      the input; the body is the spinner while loading, else the empty state
      when nothing survives, else the surviving chunks. */
  function Render(chunks: seq<Chunk>, loading: bool, filter: Category, query: string): (v: View)
    ensures v.total == |chunks| && v.shown <= v.total
    ensures v.shown == |FilterChunks(chunks, filter, query)|
    ensures v.body.ChunkList? ==> v.body.items == FilterChunks(chunks, filter, query)
    ensures v.body.Spinner? <==> loading
    ensures v.body.NoChunksFound? <==>
      !loading && forall i :: 0 <= i < |chunks| ==> !Keep(filter, query, chunks[i])
    ensures v.body.ChunkList? ==>
      |v.body.items| == v.shown > 0 &&
      forall c :: c in v.body.items <==> c in chunks && Keep(filter, query, c)
  {
    var shown := FilterChunks(chunks, filter, query);
    FilterEmptyIffNoneKept(chunks, Selector(filter, query));
    var body :=
      if loading then Spinner
      else if |shown| == 0 then NoChunksFound
      else ChunkList(shown);
    View(|shown|, |chunks|, body)
  }
}
