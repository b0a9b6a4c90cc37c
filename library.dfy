/**
 * The `BrainLibrary` object: its one field, the array of indexed chunks that
 * `initialize` pushes onto, and the `search` that reads it.
 */
module Library {
  import opened Text
  import opened Chunking
  import opened Ranking

  /** Every chunk is trimmed, non-empty, free of blank lines, and comes from a
      `.txt` or `.md` file. */
  predicate AllIndexed(docs: seq<Chunk>) {
    forall c :: c in docs ==> WellFormed(c) && IsIndexable(c.source)
  }

  /** Loading a directory keeps the index made of well-formed chunks of indexable files. */
  lemma IndexedAfterLoad(docs: seq<Chunk>, directory: seq<DirEntry>)
    requires AllIndexed(docs)
    ensures AllIndexed(docs + DirectoryChunks(directory))
  {
    DirectoryChunksSound(directory);
  }

  class BrainLibrary {
    /** `indexedDocs`, in push order. */
    var indexedDocs: seq<Chunk>

    /** Every indexed chunk is trimmed, non-empty, free of blank lines, and comes
        from a `.txt` or `.md` file. */
    ghost predicate Valid()
      reads this
    {
      AllIndexed(indexedDocs)
    }

    /** The field initialiser: the index starts empty. */
    constructor ()
      ensures indexedDocs == [] && Valid()
    {
      indexedDocs := [];
    }

    /** `initialize()` over the directory listing `directory`: for each indexable
        file, in listing order, push one trimmed chunk per non-blank section; a
        file whose read throws ends the load, keeping what was pushed. The index
        only grows: what it held before stays in front, unchanged. */
    method Initialize(directory: seq<DirEntry>)
      requires Valid()
      modifies this
      ensures indexedDocs == old(indexedDocs) + DirectoryChunks(directory)
      ensures Valid()
    {
      var files := IndexableFiles(directory);
      var i := 0;
      while i < |files| && files[i].read.Readable?
        invariant 0 <= i <= |files|
        invariant old(indexedDocs) + LoadChunks(files) == indexedDocs + LoadChunks(files[i..])
      {
        LoadAdvance(old(indexedDocs), indexedDocs, files, i);
        PushSections(files[i].name, NonBlank(Sections(files[i].read.text)));
        i := i + 1;
      }
      LoadHalt(old(indexedDocs), indexedDocs, files, i);
      IndexedAfterLoad(old(indexedDocs), directory);
    }

    /** The inner `sections.forEach(section => this.indexedDocs.push(...))` of
        `Initialize`, over the kept sections of one file; the source has no such
        operation of its own. */
    method PushSections(name: string, sections: seq<string>)
      modifies this
      ensures indexedDocs == old(indexedDocs) + MakeChunks(name, sections)
    {
      var j := 0;
      while j < |sections|
        invariant 0 <= j <= |sections|
        invariant old(indexedDocs) + MakeChunks(name, sections) == indexedDocs + MakeChunks(name, sections[j..])
      {
        PushAdvance(old(indexedDocs), indexedDocs, name, sections, j);
        indexedDocs := indexedDocs + [Chunk(Trim(sections[j]), name)];
        j := j + 1;
      }
      assert sections[j..] == [];
    }

    /** `search(query)`: the first three chunks by descending score, ties in
        index order, among those in which some query term occurs. */
    method Search(query: string) returns (results: seq<ScoredChunk>)
      ensures results == SearchResults(indexedDocs, query)
      ensures |results| <= MaxResults && Sorted(results)
      ensures forall r :: r in results ==>
        0 < r.score == Score(Terms(query), r.content) && Chunk(r.content, r.source) in indexedDocs
    {
      var scored := ScoreChunks(indexedDocs, Terms(query));
      var ranked := SortByScore(Positive(scored));
      results := ranked[..if |ranked| < MaxResults then |ranked| else MaxResults];
      SearchResultsTop(indexedDocs, query);
      SearchResultsSound(indexedDocs, query);
    }
  }
}
