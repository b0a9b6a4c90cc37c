/**
 * `BrainLibrary.search`: the query is lower-cased and split into terms, every
 * indexed chunk is scored by how many terms occur in its lower-cased content,
 * chunks scoring zero are dropped, the rest are sorted by descending score with
 * a stable sort, and the first three are returned.
 */
module Ranking {
  import opened Text
  import opened Chunking

  /** A search hit: the chunk with its score, as `{ ...doc, score }` builds it. */
  datatype ScoredChunk = ScoredChunk(content: string, source: string, score: nat)

  /** The `slice(0, 3)` bound on the number of hits. */
  const MaxResults: nat := 3

  // ---------------------------------------------------------------------------
  // Query terms
  // ---------------------------------------------------------------------------

  /** `filter(t => t.length > 2)`, in order. */
  function LongPieces(pieces: seq<string>): seq<string> {
    if pieces == [] then []
    else (if |pieces[0]| > 2 then [pieces[0]] else []) + LongPieces(pieces[1..])
  }

  /** The filter keeps exactly the pieces longer than two characters. */
  lemma {:induction false} LongPiecesMembers(pieces: seq<string>)
    ensures forall t :: t in LongPieces(pieces) <==> t in pieces && |t| > 2
    decreases |pieces|
  {
    if pieces != [] {
      LongPiecesMembers(pieces[1..]);
      assert pieces == [pieces[0]] + pieces[1..];
    }
  }

  /** `query.toLowerCase().split(/\s+/).filter(t => t.length > 2)` */
  function Terms(query: string): seq<string> {
    LongPieces(SplitOnSpaceRuns(Lower(query)))
  }

  lemma LongPiecesCons(x: string, r: seq<string>)
    ensures LongPieces([x] + r) == (if |x| > 2 then [x] else []) + LongPieces(r)
  {
    assert ([x] + r)[0] == x && ([x] + r)[1..] == r;
  }

  /** The length filter keeps the order of the pieces and every repeat. */
  lemma {:induction false} LongPiecesAppend(a: seq<string>, b: seq<string>)
    ensures LongPieces(a + b) == LongPieces(a) + LongPieces(b)
    decreases |a|
  {
    if a == [] {
      assert a + b == b;
    } else {
      LongPiecesAppend(a[1..], b);
      assert a + b == [a[0]] + (a[1..] + b);
      assert a == [a[0]] + a[1..];
      LongPiecesCons(a[0], a[1..] + b);
      LongPiecesCons(a[0], a[1..]);
    }
  }

  /** A query of one word has that word, lower-cased, as its only term, unless
      it is two characters or shorter. */
  lemma TermsOfWord(p: string)
    requires NoSpace(p)
    ensures Terms(p) == if |p| > 2 then [Lower(p)] else []
  {
    LowerProperties(p);
    assert NoSpace(Lower(p));
    SplitOfWord(Lower(p));
    assert [Lower(p)][1..] == [];
    assert LongPieces([Lower(p)]) == (if |p| > 2 then [Lower(p)] else []) + LongPieces([]);
  }

  /** The terms of a query that starts with a word and a white-space run are that
      word's term, if any, followed by the terms of the rest, in order: every
      word longer than two characters becomes a term, repeats included. */
  lemma TermsOfWordThenSpace(p: string, w: string, t: string)
    requires NoSpace(p) && w != [] && AllSpace(w) && (t == [] || !IsSpace(t[0]))
    ensures Terms(p + w + t) == (if |p| > 2 then [Lower(p)] else []) + Terms(t)
  {
    LowerAppend(p + w, t);
    LowerAppend(p, w);
    LowerProperties(p);
    LowerProperties(w);
    LowerProperties(t);
    SplitOfWordThenSpace(Lower(p), Lower(w), Lower(t));
    LongPiecesAppend([Lower(p)], SplitOnSpaceRuns(Lower(t)));
    assert [Lower(p)][1..] == [];
  }

  /** A word longer than two characters given twice is two terms, and counts
      twice in every score. */
  lemma RepeatedWordCountsTwice(p: string, w: string, content: string)
    requires NoSpace(p) && |p| > 2 && w != [] && AllSpace(w)
    ensures Terms(p + w + p) == [Lower(p), Lower(p)]
    ensures Score(Terms(p + w + p), content) == 2 * Score([Lower(p)], content)
  {
    TermsOfWordThenSpace(p, w, p);
    TermsOfWord(p);
    ScoreAppend([Lower(p)], [Lower(p)], content);
  }

  /** The query "cat cat" has two terms, and the chunk "cat" scores 2 for it. */
  lemma RepeatedWordExample()
    ensures Terms("cat cat") == ["cat", "cat"]
    ensures Score(Terms("cat cat"), "cat") == 2
  {
    var cat := "cat";
    assert "cat cat" == cat + " " + cat;
    assert NoSpace(cat) by {
      forall i | 0 <= i < |cat| ensures !IsSpace(cat[i]) {
        assert cat[i] == 'c' || cat[i] == 'a' || cat[i] == 't';
      }
    }
    assert Lower(cat) == cat by {
      forall i | 0 <= i < |cat| ensures Lower(cat)[i] == cat[i] {
        assert !IsUpper(cat[i]);
      }
    }
    RepeatedWordCountsTwice(cat, " ", cat);
    assert OccursAt(cat, cat, 0);
    assert Score([cat], cat) == 1 + Score([], cat);
  }

  /** Every piece of the split occurs in the text it was split from. */
  lemma {:induction false} SplitPiecesOccur(s: string)
    ensures forall k :: 0 <= k < |SplitOnSpaceRuns(s)| ==> Contains(s, SplitOnSpaceRuns(s)[k])
    decreases |s|
  {
    var r := SplitOnSpaceRuns(s);
    assert OccursAt(s, r[0], 0);
    if |s| > 0 {
      var a := if IsSpace(s[0]) then LeadingSpaces(s) else 1;
      var tail := SplitOnSpaceRuns(s[a..]);
      SplitPiecesOccur(s[a..]);
      forall k | 1 <= k < |r| ensures Contains(s, r[k]) {
        var j := if IsSpace(s[0]) then k - 1 else k;
        assert r[k] == tail[j];
        ContainsInSuffix(s, a, tail[j]);
      }
    }
  }

  /** Every term is longer than two characters, holds no white space and no
      upper-case letter, and occurs in the lower-cased query. */
  lemma TermsShape(query: string)
    ensures forall t :: t in Terms(query) ==>
      |t| > 2 && NoSpace(t) && (forall j :: 0 <= j < |t| ==> !IsUpper(t[j]))
      && Contains(Lower(query), t)
  {
    var low := Lower(query);
    var pieces := SplitOnSpaceRuns(low);
    SplitPiecesHaveNoSpace(low);
    SplitPiecesOccur(low);
    LowerProperties(query);
    LongPiecesMembers(pieces);
    forall t | t in Terms(query)
      ensures |t| > 2 && NoSpace(t) && (forall j :: 0 <= j < |t| ==> !IsUpper(t[j]))
      && Contains(Lower(query), t)
    {
      var k :| 0 <= k < |pieces| && pieces[k] == t;
      assert Contains(low, t);
      var i :| OccursAt(low, t, i);
      forall j | 0 <= j < |t| ensures !IsUpper(t[j]) {
        assert t[j] == low[i..i + |t|][j] == low[i + j];
      }
    }
  }

  /** The query yields no term exactly when it has no three non-white-space
      characters in a row. */
  lemma TermsEmptyIff(query: string)
    ensures Terms(query) == [] <==> !exists i :: WordOfThreeAt(query, i)
  {
    var low := Lower(query);
    var pieces := SplitOnSpaceRuns(low);
    LowerProperties(query);
    LongPiecesMembers(pieces);
    assert forall i :: WordOfThreeAt(query, i) <==> WordOfThreeAt(low, i);
    if Terms(query) != [] {
      var t := Terms(query)[0];
      assert t in Terms(query);
      var k :| 0 <= k < |pieces| && pieces[k] == t;
      LongPieceHasWord(low, k);
    }
    if exists i :: WordOfThreeAt(query, i) {
      var i :| WordOfThreeAt(query, i);
      WordGivesLongPiece(low, i);
      var k :| 0 <= k < |pieces| && |pieces[k]| > 2;
      assert pieces[k] in Terms(query);
    }
  }

  // ---------------------------------------------------------------------------
  // Scoring
  // ---------------------------------------------------------------------------

  /** The number of terms, counted with repetition, that occur in the lower-cased content. */
  function Score(terms: seq<string>, content: string): (n: nat)
    ensures n <= |terms|
  {
    if terms == [] then 0
    else (if Contains(Lower(content), terms[0]) then 1 else 0) + Score(terms[1..], content)
  }

  /** The `forEach` counting loop of the source. */
  method CountMatches(terms: seq<string>, content: string) returns (score: nat)
    ensures score == Score(terms, content)
  {
    var lowered := Lower(content);
    score := 0;
    var i := 0;
    while i < |terms|
      invariant 0 <= i <= |terms|
      invariant score + Score(terms[i..], content) == Score(terms, content)
    {
      assert terms[i..][1..] == terms[i + 1..];
      if Contains(lowered, terms[i]) {
        score := score + 1;
      }
      i := i + 1;
    }
  }

  /** A chunk scores zero exactly when no term occurs in it. */
  lemma {:induction false} ScoreZeroIff(terms: seq<string>, content: string)
    ensures Score(terms, content) == 0 <==> forall k :: 0 <= k < |terms| ==> !Contains(Lower(content), terms[k])
    decreases |terms|
  {
    if terms != [] {
      ScoreZeroIff(terms[1..], content);
      assert forall k :: 1 <= k < |terms| ==> terms[k] == terms[1..][k - 1];
    }
  }

  /** A chunk scores the full number of terms exactly when every term occurs in it. */
  lemma {:induction false} ScoreFullIff(terms: seq<string>, content: string)
    ensures Score(terms, content) == |terms| <==> forall k :: 0 <= k < |terms| ==> Contains(Lower(content), terms[k])
    decreases |terms|
  {
    if terms != [] {
      ScoreFullIff(terms[1..], content);
      assert forall k :: 1 <= k < |terms| ==> terms[k] == terms[1..][k - 1];
    }
  }

  /** Scores add up over the terms, so a repeated term counts once per repetition. */
  lemma {:induction false} ScoreAppend(a: seq<string>, b: seq<string>, content: string)
    ensures Score(a + b, content) == Score(a, content) + Score(b, content)
    decreases |a|
  {
    if a == [] {
      assert a + b == b;
    } else {
      assert (a + b)[1..] == a[1..] + b;
      ScoreAppend(a[1..], b, content);
    }
  }

  /** Only whether each term occurs matters, not how often: two contents that
      contain the same terms score the same. */
  lemma {:induction false} ScoreByContainment(terms: seq<string>, a: string, b: string)
    requires forall k :: 0 <= k < |terms| ==> (Contains(Lower(a), terms[k]) <==> Contains(Lower(b), terms[k]))
    ensures Score(terms, a) == Score(terms, b)
    decreases |terms|
  {
    if terms != [] {
      assert forall k :: 0 <= k < |terms| - 1 ==> terms[1..][k] == terms[k + 1];
      ScoreByContainment(terms[1..], a, b);
    }
  }

  /** `indexedDocs.map(doc => ({ ...doc, score }))` */
  function ScoreAll(docs: seq<Chunk>, terms: seq<string>): seq<ScoredChunk> {
    seq(|docs|, k requires 0 <= k < |docs| =>
      ScoredChunk(docs[k].content, docs[k].source, Score(terms, docs[k].content)))
  }

  /** The `map` step: score every indexed chunk, in index order. */
  method ScoreChunks(docs: seq<Chunk>, terms: seq<string>) returns (scored: seq<ScoredChunk>)
    ensures scored == ScoreAll(docs, terms)
  {
    scored := [];
    var k := 0;
    while k < |docs|
      invariant 0 <= k <= |docs|
      invariant scored == ScoreAll(docs[..k], terms)
    {
      var score := CountMatches(terms, docs[k].content);
      assert docs[..k + 1] == docs[..k] + [docs[k]];
      scored := scored + [ScoredChunk(docs[k].content, docs[k].source, score)];
      k := k + 1;
    }
    assert docs[..k] == docs;
  }

  /** `filter(d => d.score > 0)` */
  function Positive(s: seq<ScoredChunk>): (r: seq<ScoredChunk>)
    ensures forall x :: x in r <==> x in s && x.score > 0
  {
    if s == [] then []
    else (if s[0].score > 0 then [s[0]] else []) + Positive(s[1..])
  }

  // ---------------------------------------------------------------------------
  // Stable sort by descending score
  // ---------------------------------------------------------------------------

  /** Scores never increase along `s`. */
  predicate Sorted(s: seq<ScoredChunk>) {
    forall i, j :: 0 <= i < j < |s| ==> s[i].score >= s[j].score
  }

  /** The hits of `s` with score `k`, in order. */
  function WithScore(s: seq<ScoredChunk>, k: nat): seq<ScoredChunk> {
    if s == [] then []
    else (if s[0].score == k then [s[0]] else []) + WithScore(s[1..], k)
  }

  /** Places `x` before the first element of `r` whose score is not larger. */
  function Insert(x: ScoredChunk, r: seq<ScoredChunk>): seq<ScoredChunk> {
    if r == [] || x.score >= r[0].score then [x] + r
    else [r[0]] + Insert(x, r[1..])
  }

  /** `sort((a, b) => b.score - a.score)`, which is stable. */
  function SortByScore(s: seq<ScoredChunk>): seq<ScoredChunk> {
    if s == [] then [] else Insert(s[0], SortByScore(s[1..]))
  }

  lemma {:induction false} InsertPermutes(x: ScoredChunk, r: seq<ScoredChunk>)
    ensures multiset(Insert(x, r)) == multiset([x] + r)
    decreases |r|
  {
    if r != [] && x.score < r[0].score {
      InsertPermutes(x, r[1..]);
      assert r == [r[0]] + r[1..];
    }
  }

  /** Inserting a chunk under a bound on the scores keeps every score under it. */
  lemma {:induction false} InsertBounded(x: ScoredChunk, r: seq<ScoredChunk>, b: nat)
    requires x.score <= b && forall y :: y in r ==> y.score <= b
    ensures forall y :: y in Insert(x, r) ==> y.score <= b
    decreases |r|
  {
    if r != [] && x.score < r[0].score {
      assert forall y :: y in r[1..] ==> y in r;
      InsertBounded(x, r[1..], b);
    }
  }

  lemma {:induction false} InsertSorted(x: ScoredChunk, r: seq<ScoredChunk>)
    requires Sorted(r)
    ensures Sorted(Insert(x, r))
    decreases |r|
  {
    if r != [] && x.score < r[0].score {
      InsertSorted(x, r[1..]);
      var tail := Insert(x, r[1..]);
      forall y | y in r[1..] ensures y.score <= r[0].score {
        var j :| 0 <= j < |r[1..]| && r[1..][j] == y;
        assert r[j + 1] == y;
      }
      InsertBounded(x, r[1..], r[0].score);
      var s := [r[0]] + tail;
      forall i, j | 0 <= i < j < |s| ensures s[i].score >= s[j].score {
        if i == 0 { assert s[j] in tail; }
      }
    }
  }

  lemma WithScoreCons(x: ScoredChunk, r: seq<ScoredChunk>, k: nat)
    ensures WithScore([x] + r, k) == (if x.score == k then [x] else []) + WithScore(r, k)
  {
    assert ([x] + r)[0] == x && ([x] + r)[1..] == r;
  }

  lemma {:induction false} InsertStable(x: ScoredChunk, r: seq<ScoredChunk>, k: nat)
    ensures WithScore(Insert(x, r), k) == (if x.score == k then [x] else []) + WithScore(r, k)
    decreases |r|
  {
    if r == [] || x.score >= r[0].score {
      WithScoreCons(x, r, k);
    } else {
      var t := Insert(x, r[1..]);
      var head := if r[0].score == k then [r[0]] else [];
      var own := if x.score == k then [x] else [];
      InsertStable(x, r[1..], k);
      WithScoreCons(r[0], t, k);
      WithScoreCons(r[0], r[1..], k);
      assert r == [r[0]] + r[1..];
      assert head + (own + WithScore(r[1..], k)) == own + (head + WithScore(r[1..], k));
    }
  }

  /** The sort orders by descending score. */
  lemma {:induction false} SortSorted(s: seq<ScoredChunk>)
    ensures Sorted(SortByScore(s))
    decreases |s|
  {
    if s != [] {
      SortSorted(s[1..]);
      InsertSorted(s[0], SortByScore(s[1..]));
    }
  }

  /** The sort is a permutation. */
  lemma {:induction false} SortPermutes(s: seq<ScoredChunk>)
    ensures multiset(SortByScore(s)) == multiset(s)
    decreases |s|
  {
    if s != [] {
      SortPermutes(s[1..]);
      InsertPermutes(s[0], SortByScore(s[1..]));
      assert s == [s[0]] + s[1..];
    }
  }

  /** The sort is stable: the hits of any one score keep their relative order. */
  lemma {:induction false} SortStable(s: seq<ScoredChunk>, k: nat)
    ensures WithScore(SortByScore(s), k) == WithScore(s, k)
    decreases |s|
  {
    if s != [] {
      SortStable(s[1..], k);
      InsertStable(s[0], SortByScore(s[1..]), k);
    }
  }

  lemma {:induction false} WithScoreAppend(a: seq<ScoredChunk>, b: seq<ScoredChunk>, k: nat)
    ensures WithScore(a + b, k) == WithScore(a, k) + WithScore(b, k)
    decreases |a|
  {
    if a == [] {
      assert a + b == b;
    } else {
      WithScoreAppend(a[1..], b, k);
      assert a + b == [a[0]] + (a[1..] + b);
      assert a == [a[0]] + a[1..];
      WithScoreCons(a[0], a[1..] + b, k);
      WithScoreCons(a[0], a[1..], k);
    }
  }

  lemma {:induction false} WithScoreOfPositive(s: seq<ScoredChunk>, k: nat)
    requires k > 0
    ensures WithScore(Positive(s), k) == WithScore(s, k)
    decreases |s|
  {
    if s != [] {
      WithScoreOfPositive(s[1..], k);
      var head := if s[0].score > 0 then [s[0]] else [];
      WithScoreAppend(head, Positive(s[1..]), k);
      if s[0].score > 0 { assert head[1..] == []; }
    }
  }

  // ---------------------------------------------------------------------------
  // Search
  // ---------------------------------------------------------------------------

  /** Every chunk with a positive score, best first, ties in index order. */
  function Ranked(docs: seq<Chunk>, terms: seq<string>): seq<ScoredChunk> {
    SortByScore(Positive(ScoreAll(docs, terms)))
  }

  /** What `search(query)` returns over the indexed chunks `docs`. */
  function SearchResults(docs: seq<Chunk>, query: string): seq<ScoredChunk> {
    var ranked := Ranked(docs, Terms(query));
    ranked[..if |ranked| < MaxResults then |ranked| else MaxResults]
  }

  /** Every hit scores above zero, carries the score of its content, and is an
      indexed chunk. */
  lemma SearchResultsSound(docs: seq<Chunk>, query: string)
    ensures forall r :: r in SearchResults(docs, query) ==>
      && 0 < r.score <= |Terms(query)|
      && r.score == Score(Terms(query), r.content)
      && Chunk(r.content, r.source) in docs
  {
    var terms := Terms(query);
    var scored := ScoreAll(docs, terms);
    var ranked := Ranked(docs, terms);
    SortPermutes(Positive(scored));
    forall r | r in SearchResults(docs, query)
      ensures 0 < r.score && r.score == Score(terms, r.content) && Chunk(r.content, r.source) in docs
    {
      assert r in ranked;
      assert r in multiset(ranked);
      assert r in Positive(scored);
      var k :| 0 <= k < |scored| && scored[k] == r;
      assert docs[k] == Chunk(r.content, r.source);
    }
  }

  /** The hits are the first three of the ranking (or all of it, when shorter):
      best first, and no chunk left out scores above the last hit returned. */
  lemma SearchResultsTop(docs: seq<Chunk>, query: string)
    ensures var ranked := Ranked(docs, Terms(query));
            var hits := SearchResults(docs, query);
            && Sorted(hits)
            && |hits| == (if |ranked| < MaxResults then |ranked| else MaxResults)
            && hits == ranked[..|hits|]
            && (hits != [] ==> forall x :: x in ranked[|hits|..] ==> x.score <= hits[|hits| - 1].score)
  {
    var ranked := Ranked(docs, Terms(query));
    var hits := SearchResults(docs, query);
    SortSorted(Positive(ScoreAll(docs, Terms(query))));
    if hits != [] {
      forall x | x in ranked[|hits|..] ensures x.score <= hits[|hits| - 1].score {
        var j :| 0 <= j < |ranked[|hits|..]| && ranked[|hits|..][j] == x;
        assert ranked[|hits| + j] == x;
      }
    }
  }

  /** The ranking holds every chunk with a positive score, each once per
      occurrence in the index, and nothing else. */
  lemma RankedComplete(docs: seq<Chunk>, terms: seq<string>)
    ensures multiset(Ranked(docs, terms)) == multiset(Positive(ScoreAll(docs, terms)))
    ensures forall k :: 0 <= k < |docs| && Score(terms, docs[k].content) > 0 ==>
      ScoredChunk(docs[k].content, docs[k].source, Score(terms, docs[k].content)) in Ranked(docs, terms)
  {
    var scored := ScoreAll(docs, terms);
    SortPermutes(Positive(scored));
    forall k | 0 <= k < |docs| && Score(terms, docs[k].content) > 0
      ensures scored[k] in Ranked(docs, terms)
    {
      assert scored[k] in Positive(scored);
      assert scored[k] in multiset(Ranked(docs, terms));
    }
  }

  /** Hits with equal score keep the order of the index: the hits with score `k`
      are the first chunks of the index that score `k`, in index order. */
  lemma SearchResultsStable(docs: seq<Chunk>, query: string, k: nat)
    requires k > 0
    ensures WithScore(SearchResults(docs, query), k) <= WithScore(ScoreAll(docs, Terms(query)), k)
  {
    var scored := ScoreAll(docs, Terms(query));
    var ranked := Ranked(docs, Terms(query));
    var hits := SearchResults(docs, query);
    SortStable(Positive(scored), k);
    WithScoreOfPositive(scored, k);
    assert ranked == hits + ranked[|hits|..];
    WithScoreAppend(hits, ranked[|hits|..], k);
  }

  /** The ranking is empty exactly when no chunk contains any of the terms. */
  lemma RankedEmptyIff(docs: seq<Chunk>, terms: seq<string>)
    ensures Ranked(docs, terms) == [] <==>
      forall c :: c in docs ==> Score(terms, c.content) == 0
  {
    var scored := ScoreAll(docs, terms);
    if c :| c in docs && Score(terms, c.content) > 0 {
      var k :| 0 <= k < |docs| && docs[k] == c;
      RankedComplete(docs, terms);
      assert scored[k] in Ranked(docs, terms);
    } else {
      forall x | x in scored ensures x.score == 0 {
        var k :| 0 <= k < |scored| && scored[k] == x;
        assert docs[k] in docs;
      }
      PositiveOfZero(scored);
    }
  }

  /** A search finds nothing exactly when no indexed chunk contains any of the
      query's terms. */
  lemma SearchResultsEmptyIff(docs: seq<Chunk>, query: string)
    ensures SearchResults(docs, query) == [] <==>
      forall c :: c in docs ==> Score(Terms(query), c.content) == 0
  {
    RankedEmptyIff(docs, Terms(query));
  }

  /** A query without terms finds nothing. */
  lemma {:induction false} NoTermsNoResults(docs: seq<Chunk>, query: string)
    requires Terms(query) == []
    ensures SearchResults(docs, query) == []
  {
    var scored := ScoreAll(docs, Terms(query));
    assert forall x :: x in scored ==> x.score == 0;
    assert Positive(scored) == [] by {
      PositiveOfZero(scored);
    }
  }

  lemma {:induction false} PositiveOfZero(s: seq<ScoredChunk>)
    requires forall x :: x in s ==> x.score == 0
    ensures Positive(s) == []
    decreases |s|
  {
    if s != [] {
      assert s[0] in s;
      PositiveOfZero(s[1..]);
    }
  }

  /** A query made only of words of one or two characters finds nothing. */
  lemma ShortWordsFindNothing(docs: seq<Chunk>, query: string)
    requires !exists i :: WordOfThreeAt(query, i)
    ensures SearchResults(docs, query) == []
  {
    TermsEmptyIff(query);
    NoTermsNoResults(docs, query);
  }
}
