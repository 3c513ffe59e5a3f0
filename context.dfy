/** The document context: the documents and the search history it holds,
    and the operations that replace them or read them. The keywords,
    phrases and tags it derives are the functions of `Corpus`. */
module Context {
  import opened Text
  import opened Collections
  import opened Corpus
  import opened Search
  import opened Suggest
  import Query
  import Highlight
  import Extraction

  /** `prev.filter(doc => doc._id !== id)`. */
  function OtherThan(id: string): Document -> bool {
    (doc: Document) => doc.id != id
  }

  /** Every document kept by a filter is kept in order: filtering a list
      all of whose members pass gives the list back. */
  lemma {:induction false} FilterKeepsAll<T(!new)>(s: seq<T>, p: T -> bool)
    requires forall i :: 0 <= i < |s| ==> p(s[i])
    ensures Filter(s, p) == s
    decreases |s|
  {
    if s != [] {
      FilterKeepsAll(s[1..], p);
      assert s == [s[0]] + s[1..];
    }
  }

  /** Deleting the id of a document just added, when no other document has
      that id, restores the collection. */
  lemma DeleteUndoesAdd(docs: seq<Document>, d: Document)
    requires forall i :: 0 <= i < |docs| ==> docs[i].id != d.id
    ensures Filter([d] + docs, OtherThan(d.id)) == docs
  {
    assert ([d] + docs)[1..] == docs;
    FilterKeepsAll(docs, OtherThan(d.id));
  }

  class SearchContext {
    var documents: seq<Document>
    var history: seq<HistoryEntry>

    /** What every operation keeps true of the history. */
    predicate Valid()
      reads this
    {
      HistoryValid(history)
    }

    /** A context with no documents and no history. */
    constructor ()
      ensures documents == [] && history == []
      ensures Valid()
    {
      documents := [];
      history := [];
    }

    /** `addDocument`: the new document goes first. */
    method AddDocument(d: Document)
      requires Valid()
      modifies this
      ensures documents == [d] + old(documents)
      ensures history == old(history)
      ensures Valid()
    {
      documents := [d] + documents;
    }

    /** `deleteDocument`: every document with that id is dropped, the
        others keep their order. */
    method DeleteDocument(id: string)
      requires Valid()
      modifies this
      ensures documents == Filter(old(documents), OtherThan(id))
      ensures forall doc :: doc in documents <==> doc in old(documents) && doc.id != id
      ensures history == old(history)
      ensures Valid()
    {
      documents := Filter(documents, OtherThan(id));
    }

    /** `addSearchQuery`: the history records the query at time `now`; a
        blank query changes nothing. */
    method AddSearchQuery(query: string, now: string)
      requires Valid()
      modifies this
      ensures history == RecordQuery(old(history), query, now)
      ensures IsBlank(query) ==> history == old(history)
      ensures documents == old(documents)
      ensures Valid()
    {
      RecordQueryValid(history, query, now);
      history := RecordQuery(history, query, now);
    }

    /** `searchDocuments`: the map over the documents is a loop that scores
        each one; the filter and the stable sort follow. */
    method SearchDocuments(query: string) returns (r: SearchResponse)
      ensures r == SearchSpec(documents, query)
    {
      if IsBlank(query) {
        return SearchResponse([], query);
      }
      var terms := Query.Terms(query);
      var phrases := Query.Phrases(query);
      QueryWellFormed(query);
      var scored := ScoreEach(documents, terms, phrases);
      r := SearchResponse(SortDesc(Filter(scored, Relevant), ScoreKey), query);
    }

    /** `getSuggestions`: the derived keywords, phrases and tags feed the
        four sources; the de-duplication loop gives the result. */
    method GetSuggestions(prefix: string) returns (r: seq<Suggestion>)
      ensures r == SuggestionsSpec(history, ContentKeywords(documents), ContentPhrases(documents),
                                   AllTags(documents), prefix)
    {
      if |prefix| < MinPrefix {
        return [];
      }
      var keywords: seq<string> := [];
      var phrases: seq<string> := [];
      if documents != [] {
        keywords := Extraction.ExtractKeywords(AllContent(documents), MaxContentKeywords);
        phrases := Extraction.ExtractPhrases(AllContent(documents), MaxContentPhrases);
      }
      var tags := CollectTags(documents);
      r := Deduplicate(Candidates(history, keywords, phrases, tags, prefix));
    }
  }
}
