# Brain library keyword index, in Dafny

A model of the local keyword search behind the `search_documents` tool of the
"brain-library" document server (`src/document-server.ts`):

- **Ingestion** (`BrainLibrary.initialize`). The documents directory is given as
  its listing: each entry has a name and the outcome of reading it. Only names
  ending in `.txt` or `.md` are read. Each file's text is split on the literal
  separator `"\n\n"`, and pieces that are blank after `trim()` are dropped. Each
  remaining piece is pushed, trimmed, onto the `indexedDocs` field as
  `{content, source: fileName}`, in listing order and then piece order.
- **Search** (`BrainLibrary.search`). The query is lower-cased and split on runs
  of white space. Tokens of length 2 or less are dropped. Each chunk is scored
  by how many of the tokens (duplicates included) occur in its lower-cased
  content. Chunks that score 0 are dropped. The rest are sorted by descending
  score with a stable sort, and the first three are kept.
- **Reply text** (the `search_documents` branch of the tool-call handler). Each
  hit is rendered as `[source] content`. The renderings are joined with `"\n\n"`.
  When there is no hit, the reply is `No matching information found.`

The JavaScript string primitives are modelled as follows (the gaps are listed
under "Left out"):

- `trim` and the regular-expression class `\s` share the ECMAScript white-space
  and line-terminator set.
- `split("\n\n")` cuts at leftmost, non-overlapping occurrences.
- `split(/\s+/)` keeps the empty first or last piece a leading or trailing run
  produces.
- `includes` and `endsWith` are modelled directly.
- `toLowerCase` is ASCII-only.

Modules:

- `Text` (text.dfy): the string primitives.
- `Chunking` (chunking.dfy): from a directory listing to chunks.
- `Ranking` (ranking.dfy): terms, scores, the stable sort and the top three.
- `Library` (library.dfy): the `BrainLibrary` class, whose `indexedDocs` field
  `Initialize` appends to with loops, and whose `Search` reads it.
- `Response` (response.dfy): the reply text.

Two behaviours of the source may surprise a reader:

- **A file that cannot be read ends the load.** The whole loading loop sits in
  one `try`, so the first read that throws ends it. The chunks of earlier files
  stay, and no later file is read (`Chunking.LoadStopsAtUnreadable`). Files are
  not skipped one by one.
- **A repeated query word counts again.** Terms are not de-duplicated: every
  word longer than two characters becomes a term, in order, repeats included
  (`Ranking.TermsOfWordThenSpace`), so a word given twice scores twice in every
  chunk that contains it (`Ranking.RepeatedWordCountsTwice`).

## Model

| member | source | states |
|---|---|---|
| Text.Trim | src/document-server.ts:30-32 | `trim()` gives a string with no white space at either end that is the input with only white space removed from both sides |
| Text.TrimCharacterized | src/document-server.ts:30-32 | any such bordered core of the input is exactly its trim, so `trim` is uniquely determined |
| Text.TrimIdempotent | src/document-server.ts:32 | trimming a trimmed piece changes nothing |
| Text.TrimEmptyIff | src/document-server.ts:30 | `s.trim()` is falsy (empty) exactly when `s` is all white space |
| Text.Lower | src/document-server.ts:42-46 | `toLowerCase` maps each ASCII capital to its small letter and keeps every other character; its properties are those of `Text.LowerProperties` and `Text.LowerAppend` |
| Text.LowerProperties | src/document-server.ts:42 | ASCII `toLowerCase` keeps the length and the white space, leaves no upper-case letter, changes nothing else, and is idempotent |
| Text.LowerAppend | src/document-server.ts:42 | lower-casing a concatenation lower-cases each part |
| Text.EndsWith | src/document-server.ts:26 | `name.endsWith(suffix)`: the last characters of the name are the suffix |
| Text.Contains | src/document-server.ts:46 | `includes` holds exactly when the pattern occurs at some index |
| Text.ContainsInSuffix | src/document-server.ts:46 | what occurs in a suffix of a text occurs in the text |
| Text.Sections | src/document-server.ts:30 | `split('\n\n')` yields at least one piece; the first is a prefix of the text, followed by the separator when there are more |
| Text.Join | src/document-server.ts:80 | `join(sep)`: the parts with `sep` between consecutive ones; `Text.SectionsJoin` and `Text.SectionsOfJoin` make it the inverse of `split` |
| Text.SectionsJoin | src/document-server.ts:30 | joining the pieces back with `"\n\n"` gives the original text |
| Text.SectionsShape | src/document-server.ts:30 | no piece contains `"\n\n"`, and no piece but the last ends in a newline |
| Text.SectionsHaveNoSeparator | src/document-server.ts:30 | no piece of `split('\n\n')` contains `"\n\n"` |
| Text.SectionsEndWell | src/document-server.ts:30 | no piece but the last ends in a newline, or the separator would have been found one character earlier |
| Text.SectionsOfPlain | src/document-server.ts:30 | a text without `"\n\n"` splits into itself alone |
| Text.SectionsOfPiece | src/document-server.ts:30 | a leading piece followed by the separator comes out first, before the pieces of the rest |
| Text.SectionsOfJoin | src/document-server.ts:30 | splitting undoes joining for pieces shaped as the split produces them |
| Text.JoinBlank | src/document-server.ts:30 | blank pieces joined with the separator give a blank text |
| Text.SectionsOfBlank | src/document-server.ts:30 | every piece of a blank text is blank |
| Text.SectionsBlankIff | src/document-server.ts:30 | a text is blank exactly when all its pieces are |
| Text.SplitOnSpaceRuns | src/document-server.ts:42 | `split(/\s+/)` yields at least one piece; the first is the longest prefix without white space |
| Text.SplitPiecesHaveNoSpace | src/document-server.ts:42 | no piece of `split(/\s+/)` contains white space |
| Text.LeadingSpacesOfRun | src/document-server.ts:42 | the white-space run at the start of a run followed by a non-space is that whole run |
| Text.SplitOfWord | src/document-server.ts:42 | a word without white space splits into itself alone |
| Text.SplitOfWordThenSpace | src/document-server.ts:42 | a word followed by a white-space run is the first piece, and the pieces of the rest follow in order |
| Text.LongPieceHasWord | src/document-server.ts:42 | a piece longer than 2 comes from three consecutive non-space characters of the text |
| Text.WordGivesLongPiece | src/document-server.ts:42 | three consecutive non-space characters give a piece longer than 2 |
| Chunking.IsIndexable | src/document-server.ts:26 | the file-name test: the name ends in `.txt` or in `.md` |
| Chunking.IndexableFiles | src/document-server.ts:26 | the listing filter keeps exactly the entries whose name ends in `.txt` or `.md`, and keeps a listing of such names whole and in order |
| Chunking.IndexableFilesAppend | src/document-server.ts:26 | the filter keeps listing order: filtering a concatenation is concatenating the filtered parts |
| Chunking.UnindexableIgnored | src/document-server.ts:26 | an entry with any other name can be removed from the listing without changing what is read |
| Chunking.NonBlank | src/document-server.ts:30 | `filter(s => s.trim())`: keeps, in order, the sections that are not all white space, which by `Text.TrimEmptyIff` are exactly those whose `trim()` is non-empty |
| Chunking.NonBlankMembers | src/document-server.ts:30 | the filter keeps exactly the sections that are not all white space |
| Chunking.NoSeparatorInTrim | src/document-server.ts:32 | trimming a piece without `"\n\n"` leaves none |
| Chunking.KeptSectionWellFormed | src/document-server.ts:30-32 | a kept section without `"\n\n"` becomes a non-empty, trimmed chunk without `"\n\n"` |
| Chunking.FileChunksWellFormed | src/document-server.ts:30-32 | every chunk of a file is non-empty, equal to its own trim, free of `"\n\n"`, and has the file name as source |
| Chunking.NonBlankOfBlank | src/document-server.ts:30 | when all pieces are blank, none is kept |
| Chunking.FileChunksEmptyIff | src/document-server.ts:30-33 | a file contributes no chunk exactly when its text is all white space |
| Chunking.MakeChunks | src/document-server.ts:31-33 | one chunk per kept section, as many as there are sections, in section order (`Chunking.MakeChunksAt`) |
| Chunking.MakeChunksAt | src/document-server.ts:31-32 | the `k`-th chunk is the `k`-th kept section, trimmed, with the file name as source |
| Chunking.PushAdvance | src/document-server.ts:31-33 | one `push` of the next trimmed section keeps what was pushed followed by the chunks still to push equal to all the file's chunks after the old index |
| Chunking.FileChunks | src/document-server.ts:29-33 | what one readable file contributes: its sections, the blank ones dropped, each trimmed and tagged with the file name; see `Chunking.FileChunksWellFormed`, `Chunking.FileChunksEmptyIff`, `Chunking.FileChunksOfPiece` |
| Chunking.MakeChunksAppend | src/document-server.ts:31-33 | the chunks of two runs of pieces are the chunks of the first followed by those of the second |
| Chunking.NonBlankAppend | src/document-server.ts:30 | the filter distributes over concatenation, keeping order |
| Chunking.FileChunksOfPiece | src/document-server.ts:30-33 | a file's chunks follow the order of its sections |
| Chunking.FileChunksOfPlain | src/document-server.ts:30-32 | a non-blank text without `"\n\n"` gives exactly one chunk, its trim |
| Chunking.LoadChunks | src/document-server.ts:28-38 | the chunks of the files in order, up to the first file whose read throws; see `Chunking.LoadChunksStep`, `Chunking.LoadStopsAtUnreadable` |
| Chunking.DirectoryChunks | src/document-server.ts:25-38 | what loading a listing appends: the load over its `.txt` and `.md` entries; see `Chunking.DirectoryChunksSound` |
| Chunking.LoadChunksStep | src/document-server.ts:28-38 | the load from a file on is that file's chunks then the rest, or nothing if its read throws |
| Chunking.LoadAdvance | src/document-server.ts:28-33 | one loop step over a readable file keeps the pushed chunks followed by the rest of the load equal to the whole load |
| Chunking.LoadHalt | src/document-server.ts:28-38 | when the loop ends, at the end of the list or at a file whose read throws, what was pushed is the whole load |
| Chunking.LoadChunksSound | src/document-server.ts:28-33 | every loaded chunk is well formed and names a loaded file |
| Chunking.LoadStopsAtUnreadable | src/document-server.ts:25-38 | nothing after the first file whose read throws is indexed |
| Chunking.DirectoryChunksSound | src/document-server.ts:26-33 | every chunk of a directory is well formed and comes from a listed `.txt` or `.md` entry of that name |
| Ranking.LongPieces | src/document-server.ts:42 | `filter(t => t.length > 2)`, in order; see `Ranking.LongPiecesMembers`, `Ranking.LongPiecesAppend` |
| Ranking.LongPiecesMembers | src/document-server.ts:42 | the filter keeps exactly the pieces longer than 2 |
| Ranking.LongPiecesAppend | src/document-server.ts:42 | the length filter keeps the order of the pieces and every repeat |
| Ranking.Terms | src/document-server.ts:42 | the query lower-cased, split on white-space runs, pieces of length 2 or less dropped; see `Ranking.TermsShape`, `Ranking.TermsOfWord`, `Ranking.TermsOfWordThenSpace` |
| Ranking.SplitPiecesOccur | src/document-server.ts:42 | every piece of the split occurs in the split text |
| Ranking.TermsShape | src/document-server.ts:42 | every term is longer than 2, has no white space, has no upper-case letter, and occurs in the lower-cased query |
| Ranking.TermsEmptyIff | src/document-server.ts:42 | a query has no terms exactly when it has no three consecutive non-space characters |
| Ranking.TermsOfWord | src/document-server.ts:42 | a one-word query has that word, lower-cased, as its only term, unless the word is two characters or shorter |
| Ranking.TermsOfWordThenSpace | src/document-server.ts:42 | a leading word and white-space run give that word's term, if any, followed by the terms of the rest: every word longer than 2 becomes a term, in order, repeats kept |
| Ranking.RepeatedWordCountsTwice | src/document-server.ts:42-46 | a word longer than 2 given twice is two equal terms, and doubles its contribution to every score |
| Ranking.RepeatedWordExample | src/document-server.ts:42-46 | the query "cat cat" has terms `["cat", "cat"]`, and the chunk "cat" scores 2 for it |
| Ranking.Score | src/document-server.ts:45-47 | a score is at most the number of terms |
| Ranking.CountMatches | src/document-server.ts:45-46 | the counting loop computes the score |
| Ranking.ScoreZeroIff | src/document-server.ts:45-49 | a chunk scores 0 exactly when no term occurs in its lower-cased content |
| Ranking.ScoreFullIff | src/document-server.ts:45-47 | a chunk scores the number of terms exactly when every term occurs in it |
| Ranking.ScoreAppend | src/document-server.ts:46 | scores add up over concatenated term lists, so a repeated term counts each time |
| Ranking.ScoreByContainment | src/document-server.ts:46 | two contents that contain the same terms score the same, however often each occurs |
| Ranking.ScoreChunks | src/document-server.ts:43-48 | the `map` loop scores every indexed chunk, in index order |
| Ranking.ScoreAll | src/document-server.ts:43-48 | the `map`: every indexed chunk with its score, in index order; `Ranking.ScoreChunks` computes it with the source's loop |
| Ranking.Positive | src/document-server.ts:49 | `filter(d => d.score > 0)` keeps exactly the chunks with positive score |
| Ranking.Insert | src/document-server.ts:50 | places a chunk before the first chunk of the ranking whose score is not larger; see `Ranking.InsertPermutes`, `Ranking.InsertSorted`, `Ranking.InsertStable` |
| Ranking.SortByScore | src/document-server.ts:50 | `sort((a, b) => b.score - a.score)` as an insertion sort; see `Ranking.SortSorted`, `Ranking.SortPermutes`, `Ranking.SortStable` |
| Ranking.InsertPermutes | src/document-server.ts:50 | inserting one chunk into a ranking neither loses nor duplicates any chunk |
| Ranking.InsertBounded | src/document-server.ts:50 | inserting a chunk under a bound on the scores keeps every score under it |
| Ranking.InsertSorted | src/document-server.ts:50 | inserting into a ranking sorted by descending score keeps it sorted |
| Ranking.InsertStable | src/document-server.ts:50 | the inserted chunk goes before all others of its score |
| Ranking.WithScoreCons | src/document-server.ts:50 | the chunks of one score in a list are its head, if it has that score, followed by those of the tail |
| Ranking.SortSorted | src/document-server.ts:50 | the sort orders by non-increasing score |
| Ranking.SortPermutes | src/document-server.ts:50 | the sort is a permutation of its input |
| Ranking.SortStable | src/document-server.ts:50 | chunks of equal score keep their relative order through the sort |
| Ranking.WithScoreAppend | src/document-server.ts:50 | selecting the chunks of one score distributes over concatenation |
| Ranking.WithScoreOfPositive | src/document-server.ts:49-50 | dropping zero scores does not change the chunks of any positive score |
| Ranking.Ranked | src/document-server.ts:43-50 | the chunks with positive score, sorted by descending score, ties in index order; see `Ranking.RankedComplete` |
| Ranking.SearchResults | src/document-server.ts:41-54 | `search(query)`: the first `MaxResults` (3) chunks of the ranking, or all when fewer; see `Ranking.SearchResultsTop`, `Ranking.SearchResultsSound`, `Ranking.SearchResultsStable` |
| Ranking.SearchResultsSound | src/document-server.ts:43-51 | every hit has a positive score, no larger than the number of terms, equal to its content's score, and matches an indexed chunk |
| Ranking.SearchResultsTop | src/document-server.ts:50-51 | the hits are sorted, number at most 3, are a prefix of the ranking, and no omitted chunk scores above the last hit |
| Ranking.RankedComplete | src/document-server.ts:43-50 | the ranking holds every indexed chunk with positive score, once per occurrence, and nothing else |
| Ranking.RankedEmptyIff | src/document-server.ts:43-50 | the ranking is empty exactly when no chunk contains any term |
| Ranking.SearchResultsStable | src/document-server.ts:50-51 | the hits of a given score are the first chunks of the index with that score, in index order |
| Ranking.SearchResultsEmptyIff | src/document-server.ts:41-54 | a search finds nothing exactly when no indexed chunk contains any term |
| Ranking.NoTermsNoResults | src/document-server.ts:42-49 | a query without terms finds nothing |
| Ranking.PositiveOfZero | src/document-server.ts:49 | when every score is 0, the filter keeps nothing |
| Ranking.ShortWordsFindNothing | src/document-server.ts:42-49 | a query made only of tokens of length 2 or less finds nothing |
| Library.IndexedAfterLoad | src/document-server.ts:25-38 | loading a directory keeps every indexed chunk well formed and from a `.txt` or `.md` file |
| Library.BrainLibrary.constructor | src/document-server.ts:19 | the index starts empty |
| Library.BrainLibrary.Initialize | src/document-server.ts:21-39 | the index becomes the old index followed by the directory's chunks, so loading only appends and the index stays well formed |
| Library.BrainLibrary.PushSections | src/document-server.ts:31-33 | the `forEach` appends one trimmed chunk per kept section, in section order, after the old index |
| Library.BrainLibrary.Search | src/document-server.ts:41-54 | the hits are the search results of the current index: at most 3, sorted, each scoring above 0 and matching an indexed chunk |
| Response.Format | src/document-server.ts:80 | one hit as `[source] content`; see `Response.FormatShape` |
| Response.FormatAll | src/document-server.ts:80 | the `map` over the hits, in order |
| Response.JoinStartsWithFirst | src/document-server.ts:80 | a joined list of renderings starts with the first rendering |
| Response.Render | src/document-server.ts:79-81 | the reply is the message `NoMatch`, "No matching information found.", exactly when there is no hit; otherwise the rendered hits joined with `"\n\n"` (`Response.RenderSplitsBack`) |
| Response.FormatShape | src/document-server.ts:80 | a rendered hit of a well-formed chunk whose file name holds no blank line (`"\n\n"`) has no `"\n\n"` and does not end in a newline |
| Response.RenderSplitsBack | src/document-server.ts:79-81 | when every hit is a well-formed chunk whose file name holds no blank line, splitting a reply with hits on `"\n\n"` gives back the rendered hits, in order |
| Response.ReplySplitsIntoHits | src/document-server.ts:41-54 | over an index built by loading, when no indexed file name holds a blank line, a reply with hits splits back into them |
| Response.CallSearchDocuments | src/document-server.ts:76-81 | over a valid library, the reply renders the search results; it is the no-match message exactly when no indexed chunk contains a term; and when no indexed file name holds a blank line, a reply with hits splits on `"\n\n"` back into the rendered hits |

## Left out

- Filesystem access is not modelled: `existsSync`, `mkdirSync`, `readdirSync`, `readFileSync` and `path.join`. The directory is a given listing of names with read outcomes. A failure of `readdirSync` itself, which also lands in the `catch`, is not modelled.
- Console logging is not modelled: the start and count messages and the `catch` handler's message.
- `async`/`await` is not modelled. Both operations run to completion without interleaving.
- The MCP server and transport, the tool list, zod argument parsing, the "Tool not found" error and the process-level exception handlers are not modelled. The query reaches `CallSearchDocuments` as a string.
- `toLowerCase` is ASCII only. Full Unicode case mapping, which can change string length, is not modelled.
- Strings are sequences of characters, not UTF-16 code units. `length > 2` counts characters.
- src/index.ts, src/index.js, src/test-ollama.ts and src/index.d.ts are not part of this model. They contain the agent, the command-line client, a network smoke test and type declarations.
- Response.ReplySplitsIntoHits: the reply is promised to split back into its hits only when no indexed file name holds a blank line. File names may contain newlines, and a hit from `x\n\ny.md` renders as `[x\n\ny.md] cat`, which the blank-line split cuts in two. The source makes no promise here either: a reply built by `join("\n\n")` is only unambiguous under this condition.
