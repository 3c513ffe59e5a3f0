/** `searchDocuments`: every document is scored against the query's terms
    and phrases, given up to three highlighted sentences, and the documents
    that score above zero are returned best first. */
module Search {
  import opened Text
  import opened Collections
  import opened Corpus
  import opened Highlight
  import Query

  datatype ScoredDoc = ScoredDoc(doc: Document, score: real, highlights: Option<seq<string>>)

  datatype SearchResponse = SearchResponse(results: seq<ScoredDoc>, query: string)

  /** The weights of the score. */
  const TitleWeight: nat := 3
  const ContentWeight: nat := 1
  const TagWeight: nat := 2
  const PhraseWeight: nat := 3
  /** Each matched phrase counts twice before weighting. */
  const PhraseRepeat: nat := 2
  /** The score is divided by 6 per term and phrase of the query. */
  const Scale: nat := 6

  /** How many of `needles` occur in `hay`. */
  function CountIn(needles: seq<string>, hay: string): (n: nat)
    ensures n <= |needles|
  {
    if needles == [] then 0
    else (if Contains(hay, needles[0]) then 1 else 0) + CountIn(needles[1..], hay)
  }

  /** Some tag, lowercased, contains `term`. */
  predicate InSomeTag(tags: seq<string>, term: string) {
    exists k :: 0 <= k < |tags| && Contains(ToLower(tags[k]), term)
  }

  /** How many terms occur in some tag. */
  function CountInTags(terms: seq<string>, tags: seq<string>): (n: nat)
    ensures n <= |terms|
  {
    if terms == [] then 0
    else (if InSomeTag(tags, terms[0]) then 1 else 0) + CountInTags(terms[1..], tags)
  }

  /** How many phrases occur, ignoring case, in the content or the title. */
  function CountPhrases(phrases: seq<string>, doc: Document): (n: nat)
    ensures n <= |phrases|
  {
    if phrases == [] then 0
    else
      var p := ToLower(phrases[0]);
      (if Contains(ToLower(doc.content), p) || Contains(ToLower(doc.title), p) then 1 else 0)
      + CountPhrases(phrases[1..], doc)
  }

  /** The weighted number of matches. */
  function Hits(doc: Document, terms: seq<string>, phrases: seq<string>): nat {
    TitleWeight * CountIn(terms, ToLower(doc.title))
    + ContentWeight * CountIn(terms, ToLower(doc.content))
    + TagWeight * CountInTags(terms, doc.tags)
    + PhraseWeight * (PhraseRepeat * CountPhrases(phrases, doc))
  }

  /** The relevance score of a document. */
  function Score(doc: Document, terms: seq<string>, phrases: seq<string>): real
    requires |terms| + |phrases| > 0
  {
    Hits(doc, terms, phrases) as real / (((|terms| + |phrases|) * Scale) as real)
  }

  /** The score lies between 0 and 1, and it is positive exactly when some
      term occurs in the title, the content or a tag, or some phrase occurs
      in the content or the title. */
  lemma ScoreBounds(doc: Document, terms: seq<string>, phrases: seq<string>)
    requires |terms| + |phrases| > 0
    ensures 0.0 <= Score(doc, terms, phrases) <= 1.0
    ensures Score(doc, terms, phrases) > 0.0 <==>
            CountIn(terms, ToLower(doc.title)) > 0 || CountIn(terms, ToLower(doc.content)) > 0
            || CountInTags(terms, doc.tags) > 0 || CountPhrases(phrases, doc) > 0
  {
    var n := Hits(doc, terms, phrases);
    var d := (|terms| + |phrases|) * Scale;
    assert n <= d;
    assert n > 0 <==> CountIn(terms, ToLower(doc.title)) > 0 || CountIn(terms, ToLower(doc.content)) > 0
                      || CountInTags(terms, doc.tags) > 0 || CountPhrases(phrases, doc) > 0;
    RatioBounds(n, d);
  }

  lemma RatioBounds(n: nat, d: nat)
    requires 0 < d && n <= d
    ensures 0.0 <= n as real / d as real <= 1.0
    ensures n as real / d as real > 0.0 <==> n > 0
  {
    var q := n as real / d as real;
    assert q * d as real == n as real;
  }

  /** A document with its score and highlights; highlights are absent
      rather than empty. */
  function Scored(doc: Document, terms: seq<string>, phrases: seq<string>): (s: ScoredDoc)
    requires |terms| + |phrases| > 0 && WellFormed(ExcerptTier, terms, phrases)
    ensures s.doc == doc && s.score == Score(doc, terms, phrases)
    ensures s.highlights.Some? ==> 1 <= |s.highlights.value| <= MaxExcerpts
  {
    var hs := Excerpts(doc.content, terms, phrases);
    ScoredDoc(doc, Score(doc, terms, phrases), if hs == [] then None else Some(hs))
  }

  function ScoreAll(docs: seq<Document>, terms: seq<string>, phrases: seq<string>): (r: seq<ScoredDoc>)
    requires |terms| + |phrases| > 0 && WellFormed(ExcerptTier, terms, phrases)
    ensures |r| == |docs|
    ensures forall i :: 0 <= i < |docs| ==> r[i] == Scored(docs[i], terms, phrases)
  {
    seq(|docs|, i requires 0 <= i < |docs| => Scored(docs[i], terms, phrases))
  }

  predicate Relevant(s: ScoredDoc) { s.score > 0.0 }

  function ScoreKey(s: ScoredDoc): real { s.score }

  /** Every phrase of a query is non-empty, and there is always a term. */
  lemma QueryWellFormed(query: string)
    ensures |Query.Terms(query)| + |Query.Phrases(query)| > 0
    ensures WellFormed(ExcerptTier, Query.Terms(query), Query.Phrases(query))
  {
  }

  /** `searchDocuments(query)` over `docs`. */
  function SearchSpec(docs: seq<Document>, query: string): (r: SearchResponse)
    ensures r.query == query
    ensures IsBlank(query) ==> r.results == []
  {
    if IsBlank(query) then SearchResponse([], query)
    else
      var terms := Query.Terms(query);
      var phrases := Query.Phrases(query);
      QueryWellFormed(query);
      SearchResponse(SortDesc(Filter(ScoreAll(docs, terms, phrases), Relevant), ScoreKey), query)
  }

  /** Scores one document; its highlight loop is `CollectMatches`. */
  method ScoreDocument(doc: Document, terms: seq<string>, phrases: seq<string>) returns (s: ScoredDoc)
    requires |terms| + |phrases| > 0 && WellFormed(ExcerptTier, terms, phrases)
    ensures s == Scored(doc, terms, phrases)
  {
    var hs := CollectMatches(Units(ExcerptTier, Sentences(doc.content)), Keep(ExcerptTier, terms, phrases),
                             Marker(ExcerptTier, terms, phrases));
    s := ScoredDoc(doc, Score(doc, terms, phrases), if hs == [] then None else Some(hs));
  }

  /** The `map` over the documents: a loop that scores each one in turn. */
  method ScoreEach(docs: seq<Document>, terms: seq<string>, phrases: seq<string>) returns (scored: seq<ScoredDoc>)
    requires |terms| + |phrases| > 0 && WellFormed(ExcerptTier, terms, phrases)
    ensures scored == ScoreAll(docs, terms, phrases)
  {
    scored := [];
    for i := 0 to |docs|
      invariant scored == ScoreAll(docs[..i], terms, phrases)
    {
      var s := ScoreDocument(docs[i], terms, phrases);
      ScoreAllSnoc(docs, terms, phrases, i);
      scored := scored + [s];
    }
    assert docs[..|docs|] == docs;
  }

  lemma ScoreAllSnoc(docs: seq<Document>, terms: seq<string>, phrases: seq<string>, i: nat)
    requires |terms| + |phrases| > 0 && WellFormed(ExcerptTier, terms, phrases)
    requires i < |docs|
    ensures ScoreAll(docs[..i + 1], terms, phrases)
            == ScoreAll(docs[..i], terms, phrases) + [Scored(docs[i], terms, phrases)]
  {
    var a := ScoreAll(docs[..i + 1], terms, phrases);
    var b := ScoreAll(docs[..i], terms, phrases) + [Scored(docs[i], terms, phrases)];
    assert |a| == |b|;
    forall k | 0 <= k < |a| ensures a[k] == b[k] {
      assert a[k] == Scored(docs[k], terms, phrases) by {
        assert docs[..i + 1][k] == docs[k];
      }
      if k < i {
        assert docs[..i][k] == docs[k];
        assert b[k] == ScoreAll(docs[..i], terms, phrases)[k];
      } else {
        assert b[k] == Scored(docs[i], terms, phrases);
      }
    }
  }

  /** The results are the relevant documents, each once, with their score
      and highlights, best score first; documents with equal scores keep
      their order in the collection. */
  lemma SearchCorrect(docs: seq<Document>, query: string, c: real)
    requires !IsBlank(query)
    ensures var r := SearchSpec(docs, query).results;
            var all := ScoreAll(docs, Query.Terms(query), Query.Phrases(query));
            && SortedDesc(r, ScoreKey)
            && (forall x :: x in r <==> x in all && x.score > 0.0)
            && multiset(r) == multiset(Filter(all, Relevant))
            && WithKey(r, ScoreKey, c) == WithKey(Filter(all, Relevant), ScoreKey, c)
  {
    QueryWellFormed(query);
    SearchResults(docs, query);
    RankedResults(ScoreAll(docs, Query.Terms(query), Query.Phrases(query)), c);
  }

  /** `SearchCorrect` for any scored list. */
  lemma RankedResults(all: seq<ScoredDoc>, c: real)
    ensures var r := SortDesc(Filter(all, Relevant), ScoreKey);
            && SortedDesc(r, ScoreKey)
            && (forall x :: x in r <==> x in all && x.score > 0.0)
            && multiset(r) == multiset(Filter(all, Relevant))
            && WithKey(r, ScoreKey, c) == WithKey(Filter(all, Relevant), ScoreKey, c)
  {
    SortFilterCorrect(all, Relevant, ScoreKey, c);
  }

  lemma SearchResults(docs: seq<Document>, query: string)
    requires !IsBlank(query)
    ensures SearchSpec(docs, query).results
            == SortDesc(Filter(ScoreAll(docs, Query.Terms(query), Query.Phrases(query)), Relevant), ScoreKey)
  {
    QueryWellFormed(query);
  }

  /** A query whose only term is "" (a query made only of one quoted
      phrase is one, see `Query.QuotedOnlyTerms`) matches every title:
      every document is returned, whether or not it holds the phrase. */
  lemma EmptyTermMatchesAll(docs: seq<Document>, query: string, i: nat)
    requires !IsBlank(query) && Query.Terms(query) == [""] && i < |docs|
    ensures Scored(docs[i], Query.Terms(query), Query.Phrases(query)) in SearchSpec(docs, query).results
  {
    var terms := Query.Terms(query);
    var phrases := Query.Phrases(query);
    var all := ScoreAll(docs, terms, phrases);
    ContainsEmpty(ToLower(docs[i].title));
    assert CountIn(terms, ToLower(docs[i].title)) == 1;
    ScoreBounds(docs[i], terms, phrases);
    assert all[i].score > 0.0;
    SearchCorrect(docs, query, 0.0);
  }
}
