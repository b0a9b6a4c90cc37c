/**
 * The `search_documents` tool's reply text: each hit rendered as
 * "[source] content", the hits joined with a blank line ("\n\n"), or a fixed
 * message when there is no hit.
 */
module Response {
  import opened Text
  import opened Chunking
  import opened Ranking
  import opened Library

  /** The reply when the search returns nothing. */
  const NoMatch: string := "No matching information found."

  /** One hit as the reply shows it: its file name in brackets, a space, its text. */
  function Format(r: ScoredChunk): string {
    "[" + r.source + "] " + r.content
  }

  function FormatAll(results: seq<ScoredChunk>): seq<string> {
    seq(|results|, k requires 0 <= k < |results| => Format(results[k]))
  }

  /** A joined list starts with its first part. */
  lemma JoinStartsWithFirst(parts: seq<string>, sep: string)
    requires |parts| >= 1
    ensures parts[0] <= Join(parts, sep)
  {
  }

  /** The reply text for a list of hits: the fixed message is given exactly when
      there are no hits (a rendered hit starts with '['). */
  function Render(results: seq<ScoredChunk>): (text: string)
    ensures text == NoMatch <==> results == []
  {
    if |results| > 0 then
      var parts := FormatAll(results);
      JoinStartsWithFirst(parts, Separator);
      assert Format(results[0])[0] == '[';
      Join(parts, Separator)
    else NoMatch
  }

  /** A hit whose text is a chunk as indexing leaves it, and whose file name has
      no blank line, renders without a blank line and does not end in a newline. */
  lemma FormatShape(r: ScoredChunk)
    requires WellFormed(Chunk(r.content, r.source)) && NoSeparator(r.source)
    ensures NoSeparator(Format(r)) && !EndsInNewline(Format(r))
  {
    var f := Format(r);
    var n := |r.source|;
    assert f[..n + 1] == "[" + r.source && f[n + 1] == ']' && f[n + 2] == ' ';
    assert f[n + 3..] == r.content;
    forall i | 0 <= i < |f| ensures !SeparatorAt(f, i) {
      if 1 <= i < n {
        assert !SeparatorAt(r.source, i - 1);
        assert f[i] == r.source[i - 1] && f[i + 1] == r.source[i];
      } else if n + 3 <= i {
        assert !SeparatorAt(r.content, i - n - 3);
      }
    }
    assert f[|f| - 1] == r.content[|r.content| - 1];
  }

  /** Splitting a non-empty reply on blank lines gives back one rendered hit per
      piece, in order: the reply is unambiguous. */
  lemma RenderSplitsBack(results: seq<ScoredChunk>)
    requires results != []
    requires forall r :: r in results ==> WellFormed(Chunk(r.content, r.source)) && NoSeparator(r.source)
    ensures Sections(Render(results)) == FormatAll(results)
  {
    var parts := FormatAll(results);
    forall k | 0 <= k < |parts| ensures NoSeparator(parts[k]) && !EndsInNewline(parts[k]) {
      assert results[k] in results;
      FormatShape(results[k]);
    }
    SectionsOfJoin(parts);
  }

  /** Over a library whose chunks come from indexing, and whose file names hold no
      blank line, the reply to a search with hits splits back into those hits. */
  lemma ReplySplitsIntoHits(docs: seq<Chunk>, query: string)
    requires AllIndexed(docs)
    requires forall c :: c in docs ==> NoSeparator(c.source)
    requires SearchResults(docs, query) != []
    ensures Sections(Render(SearchResults(docs, query))) == FormatAll(SearchResults(docs, query))
  {
    SearchResultsSound(docs, query);
    RenderSplitsBack(SearchResults(docs, query));
  }

  /** The `search_documents` branch of the tool-call handler, after its argument
      has been parsed: search the library and render the hits. The reply is the
      fixed message exactly when no indexed chunk contains a query term; when no
      indexed file name holds a blank line, a reply with hits splits back into
      them, which the library's invariant makes possible. */
  method CallSearchDocuments(lib: BrainLibrary, query: string) returns (text: string)
    requires lib.Valid()
    ensures text == Render(SearchResults(lib.indexedDocs, query))
    ensures text == NoMatch <==> forall c :: c in lib.indexedDocs ==> Score(Terms(query), c.content) == 0
    ensures text != NoMatch && (forall c :: c in lib.indexedDocs ==> NoSeparator(c.source)) ==>
      Sections(text) == FormatAll(SearchResults(lib.indexedDocs, query))
  {
    var results := lib.Search(query);
    text := Render(results);
    SearchResultsEmptyIff(lib.indexedDocs, query);
    if results != [] && forall c :: c in lib.indexedDocs ==> NoSeparator(c.source) {
      ReplySplitsIntoHits(lib.indexedDocs, query);
    }
  }
}
