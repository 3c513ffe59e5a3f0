/** The state the document context keeps: documents, the search history,
    and the values derived from the documents — the content keywords, the
    content phrases and the set of tags. */
module Corpus {
  import opened Text
  import opened Collections
  import Extraction

  datatype Document = Document(id: string, title: string, content: string, tags: seq<string>, createdAt: string)

  datatype HistoryEntry = HistoryEntry(query: string, count: nat, lastSearched: string)

  /** Most keywords and phrases derived from the corpus. */
  const MaxContentKeywords: nat := 50
  const MaxContentPhrases: nat := 20

  /** Most entries the search history keeps. */
  const MaxHistory: nat := 50

  function Contents(docs: seq<Document>): (cs: seq<string>)
    ensures |cs| == |docs|
    ensures forall i :: 0 <= i < |docs| ==> cs[i] == docs[i].content
  {
    if docs == [] then [] else [docs[0].content] + Contents(docs[1..])
  }

  /** Every document's content, joined with single spaces. */
  function AllContent(docs: seq<Document>): string {
    Join(Contents(docs), " ")
  }

  /** `contentKeywords`: the top 50 keywords of all content, none when
      there are no documents. */
  function ContentKeywords(docs: seq<Document>): (r: seq<string>)
    ensures |r| <= MaxContentKeywords && NoDup(r)
    ensures forall i :: 0 <= i < |r| ==> IsLower(r[i]) && r[i] in Extraction.KeywordTokens(AllContent(docs))
  {
    if docs == [] then []
    else
      Extraction.KeywordsCorrect(AllContent(docs), MaxContentKeywords);
      Extraction.Keywords(AllContent(docs), MaxContentKeywords)
  }

  /** `contentPhrases`: the top 20 repeated phrases of all content, none
      when there are no documents. */
  function ContentPhrases(docs: seq<Document>): (r: seq<string>)
    ensures |r| <= MaxContentPhrases && NoDup(r)
  {
    if docs == [] then []
    else
      Extraction.PhrasesCorrect(AllContent(docs), MaxContentPhrases);
      Extraction.Phrases(AllContent(docs), MaxContentPhrases)
  }

  /** Every tag of every document, lowercased, in document order. */
  function LowerTags(docs: seq<Document>): seq<string>
    decreases |docs|
  {
    if docs == [] then [] else LowerTags(docs[..|docs| - 1]) + LowerAll(docs[|docs| - 1].tags)
  }

  /** A string is among the lowercased tags exactly when some tag of some
      document lowercases to it. */
  lemma {:induction false} LowerTagsMembers(docs: seq<Document>, x: string)
    ensures x in LowerTags(docs) <==>
            exists i, j :: 0 <= i < |docs| && 0 <= j < |docs[i].tags| && ToLower(docs[i].tags[j]) == x
    decreases |docs|
  {
    if docs != [] {
      var init := docs[..|docs| - 1];
      var last := docs[|docs| - 1];
      LowerTagsMembers(init, x);
      if x in LowerAll(last.tags) {
        var j :| 0 <= j < |last.tags| && LowerAll(last.tags)[j] == x;
        assert ToLower(docs[|docs| - 1].tags[j]) == x;
      }
      if exists i, j :: 0 <= i < |docs| && 0 <= j < |docs[i].tags| && ToLower(docs[i].tags[j]) == x {
        var i, j :| 0 <= i < |docs| && 0 <= j < |docs[i].tags| && ToLower(docs[i].tags[j]) == x;
        if i < |docs| - 1 {
          assert init[i] == docs[i];
        } else {
          assert LowerAll(last.tags)[j] == x;
        }
      }
    }
  }

  /** `allTags`: each lowercased tag once, in order of first appearance. */
  function AllTags(docs: seq<Document>): seq<string> {
    Distinct(LowerTags(docs))
  }

  /** The tag list has no duplicates and holds exactly the lowercased tags
      of the documents. */
  lemma AllTagsCorrect(docs: seq<Document>)
    ensures NoDup(AllTags(docs))
    ensures forall x :: x in AllTags(docs) <==>
              exists i, j :: 0 <= i < |docs| && 0 <= j < |docs[i].tags| && ToLower(docs[i].tags[j]) == x
  {
    forall x ensures x in AllTags(docs) <==>
              exists i, j :: 0 <= i < |docs| && 0 <= j < |docs[i].tags| && ToLower(docs[i].tags[j]) == x
    {
      LowerTagsMembers(docs, x);
    }
  }

  lemma LowerTagsSnoc(docs: seq<Document>, i: nat)
    requires i < |docs|
    ensures LowerTags(docs[..i + 1]) == LowerTags(docs[..i]) + LowerAll(docs[i].tags)
  {
    assert docs[..i + 1][..i] == docs[..i];
  }

  lemma LowerAllSnoc(before: seq<string>, ts: seq<string>, j: nat)
    requires j < |ts|
    ensures before + LowerAll(ts[..j + 1]) == (before + LowerAll(ts[..j])) + [ToLower(ts[j])]
  {
    assert LowerAll(ts[..j + 1]) == LowerAll(ts[..j]) + [ToLower(ts[j])];
  }

  /** The nested `forEach` that fills the tag set. */
  method CollectTags(docs: seq<Document>) returns (tags: seq<string>)
    ensures tags == AllTags(docs)
  {
    if |docs| == 0 {
      return [];
    }
    tags := [];
    var seen: set<string> := {};
    for i := 0 to |docs|
      invariant tags == Distinct(LowerTags(docs[..i]))
      invariant forall x :: x in seen <==> x in tags
    {
      LowerTagsSnoc(docs, i);
      ghost var before := LowerTags(docs[..i]);
      var ts := docs[i].tags;
      assert before + LowerAll(ts[..0]) == before;
      for j := 0 to |ts|
        invariant tags == Distinct(before + LowerAll(ts[..j]))
        invariant forall x :: x in seen <==> x in tags
      {
        var t := ToLower(ts[j]);
        LowerAllSnoc(before, ts, j);
        DistinctSnoc(before + LowerAll(ts[..j]), t);
        if t !in seen {
          seen := seen + {t};
          tags := tags + [t];
        }
      }
      assert ts[..|ts|] == ts;
    }
    assert docs[..|docs|] == docs;
  }

  /** The first history entry whose query, lowercased, is `q`
      (`findIndex`). */
  function FindQuery(history: seq<HistoryEntry>, q: string): (r: Option<nat>)
    ensures r.Some? ==> r.value < |history| && ToLower(history[r.value].query) == q
    ensures r.Some? ==> forall j :: 0 <= j < r.value ==> ToLower(history[j].query) != q
    ensures r.None? ==> forall j :: 0 <= j < |history| ==> ToLower(history[j].query) != q
    decreases |history|
  {
    if history == [] then None
    else if ToLower(history[0].query) == q then Some(0)
    else match FindQuery(history[1..], q)
      case Some(i) => Some(i + 1)
      case None => None
  }

  /** The query as the history stores it: trimmed, then lowercased. */
  function NormalQuery(query: string): (q: string)
    ensures IsLower(q) && ToLower(q) == q
    ensures q == [] <==> IsBlank(query)
  {
    ToLowerIsLower(Trim(query));
    ToLower(Trim(query))
  }

  /** `addSearchQuery(query)` at time `now`: a blank query changes nothing;
      a query already in the history has its count raised and its time
      renewed in place; a new one goes in front with count 1, and the
      history is cut to its first 50 entries. */
  function RecordQuery(history: seq<HistoryEntry>, query: string, now: string): (r: seq<HistoryEntry>)
    ensures IsBlank(query) ==> r == history
  {
    var q := NormalQuery(query);
    if q == [] then history else Recorded(history, q, now)
  }

  /** Recording the normalized, non-blank query `q`. */
  function Recorded(history: seq<HistoryEntry>, q: string, now: string): seq<HistoryEntry> {
    match FindQuery(history, q)
    case Some(i) => history[i := history[i].(count := history[i].count + 1, lastSearched := now)]
    case None => Take([HistoryEntry(q, 1, now)] + history, MaxHistory)
  }

  /** How many times the history says `q` was searched: the count of the
      first entry whose lowercased query is `q`. */
  function CountOf(history: seq<HistoryEntry>, q: string): nat {
    match FindQuery(history, q)
    case Some(i) => history[i].count
    case None => 0
  }

  /** Recording a non-blank query raises its count by exactly one and stamps
      it with the current time. */
  lemma RecordQueryCounts(history: seq<HistoryEntry>, query: string, now: string)
    requires !IsBlank(query)
    ensures var r := RecordQuery(history, query, now);
            var q := NormalQuery(query);
            && CountOf(r, q) == CountOf(history, q) + 1
            && FindQuery(r, q).Some? && r[FindQuery(r, q).value].lastSearched == now
  {
    RecordedCounts(history, NormalQuery(query), now);
  }

  lemma RecordedCounts(history: seq<HistoryEntry>, q: string, now: string)
    requires IsLower(q)
    ensures var r := Recorded(history, q, now);
            && CountOf(r, q) == CountOf(history, q) + 1
            && FindQuery(r, q).Some? && r[FindQuery(r, q).value].lastSearched == now
  {
    var r := Recorded(history, q, now);
    match FindQuery(history, q)
    case Some(i) =>
      assert forall j :: 0 <= j < i ==> r[j] == history[j];
      FindQueryAt(r, q, i);
    case None =>
      FindQueryAt(r, q, 0);
  }

  /** `FindQuery` finds the first match where it is. */
  lemma {:induction false} FindQueryAt(history: seq<HistoryEntry>, q: string, i: nat)
    requires i < |history| && ToLower(history[i].query) == q
    requires forall j :: 0 <= j < i ==> ToLower(history[j].query) != q
    ensures FindQuery(history, q) == Some(i)
    decreases i
  {
    if i > 0 {
      assert forall j :: 0 <= j < i - 1 ==> history[1..][j] == history[j + 1];
      FindQueryAt(history[1..], q, i - 1);
    }
  }

  /** `FindQuery` finds nothing where nothing matches. */
  lemma {:induction false} FindQueryNone(history: seq<HistoryEntry>, q: string)
    requires forall j :: 0 <= j < |history| ==> ToLower(history[j].query) != q
    ensures FindQuery(history, q) == None
    decreases |history|
  {
    if history != [] {
      assert forall j :: 0 <= j < |history| - 1 ==> history[1..][j] == history[j + 1];
      FindQueryNone(history[1..], q);
    }
  }

  /** Recording one query leaves the count of every other query alone, as
      long as the query is already in the history or the history is not
      full (a full history drops its last entry when a new query arrives:
      see `RecordQueryFull`). */
  lemma RecordQueryOthers(history: seq<HistoryEntry>, query: string, now: string, other: string)
    requires other != NormalQuery(query)
    requires |history| < MaxHistory || IsBlank(query) || FindQuery(history, NormalQuery(query)).Some?
    ensures CountOf(RecordQuery(history, query, now), other) == CountOf(history, other)
  {
    var q := NormalQuery(query);
    if q != [] {
      RecordedOthers(history, q, now, other);
    }
  }

  lemma RecordedOthers(history: seq<HistoryEntry>, q: string, now: string, other: string)
    requires IsLower(q) && other != q
    requires |history| < MaxHistory || FindQuery(history, q).Some?
    ensures CountOf(Recorded(history, q, now), other) == CountOf(history, other)
  {
    var found := FindQuery(history, q);
    if found.Some? {
      var i := found.value;
      assert ToLower(history[i].query) == q;
      UpdateOthers(history, i, now, other);
    } else {
      assert |history| < MaxHistory;
      PrependOthers(history, q, now, other);
    }
  }

  /** A new query arriving at a full history goes in front and pushes out
      the oldest entry: that entry's query is forgotten, and every other
      query keeps its count. */
  lemma RecordQueryFull(history: seq<HistoryEntry>, query: string, now: string, other: string)
    requires HistoryValid(history) && |history| == MaxHistory
    requires !IsBlank(query) && FindQuery(history, NormalQuery(query)).None?
    requires other != NormalQuery(query)
    ensures var r := RecordQuery(history, query, now);
            && |r| == MaxHistory
            && r[0] == HistoryEntry(NormalQuery(query), 1, now)
            && r[1..] == history[..MaxHistory - 1]
            && CountOf(r, other) == (if ToLower(history[MaxHistory - 1].query) == other then 0 else CountOf(history, other))
  {
    RecordedFull(history, NormalQuery(query), now, other);
  }

  lemma RecordedFull(history: seq<HistoryEntry>, q: string, now: string, other: string)
    requires HistoryValid(history) && |history| == MaxHistory
    requires IsLower(q) && FindQuery(history, q).None? && other != q
    ensures var r := Recorded(history, q, now);
            && |r| == MaxHistory
            && r[0] == HistoryEntry(q, 1, now)
            && r[1..] == history[..MaxHistory - 1]
            && CountOf(r, other) == (if ToLower(history[MaxHistory - 1].query) == other then 0 else CountOf(history, other))
  {
    LowerStringUnchanged(q);
    var e := HistoryEntry(q, 1, now);
    var r := [e] + history[..MaxHistory - 1];
    assert Recorded(history, q, now) == Take([e] + history, MaxHistory) == r;
    assert r[1..] == history[..MaxHistory - 1];
    var last := MaxHistory - 1;
    if ToLower(history[last].query) == other {
      var qs := Queries(history);
      LastOnly(qs);
      assert forall j :: 0 <= j < last ==> ToLower(history[j].query) == qs[j];
      DropLastGone(history, e, other);
    } else {
      DropLastKeeps(history, e, other);
    }
  }

  /** Putting `e` in front and dropping the last entry forgets a query
      that only the last entry held. */
  lemma DropLastGone(history: seq<HistoryEntry>, e: HistoryEntry, other: string)
    requires |history| > 0 && ToLower(e.query) != other
    requires forall j :: 0 <= j < |history| - 1 ==> ToLower(history[j].query) != other
    ensures CountOf([e] + history[..|history| - 1], other) == 0
  {
    var r := [e] + history[..|history| - 1];
    assert forall j :: 0 < j < |r| ==> r[j] == history[j - 1];
    FindQueryNone(r, other);
  }

  /** Putting `e` in front and dropping the last entry keeps the count of
      every query the last entry does not hold. */
  lemma DropLastKeeps(history: seq<HistoryEntry>, e: HistoryEntry, other: string)
    requires |history| > 0 && ToLower(e.query) != other
    requires ToLower(history[|history| - 1].query) != other
    ensures CountOf([e] + history[..|history| - 1], other) == CountOf(history, other)
  {
    var r := [e] + history[..|history| - 1];
    assert forall j :: 0 <= j < |history| - 1 ==> r[j + 1] == history[j];
    var found := FindQuery(history, other);
    if found.Some? {
      FindQueryAt(r, other, found.value + 1);
    } else {
      FindQueryNone(r, other);
    }
  }

  /** In a sequence without duplicates, the last element occurs nowhere
      else. */
  lemma LastOnly(qs: seq<string>)
    requires NoDup(qs) && |qs| > 0
    ensures forall j :: 0 <= j < |qs| - 1 ==> qs[j] != qs[|qs| - 1]
  {
  }

  lemma UpdateOthers(history: seq<HistoryEntry>, i: nat, now: string, other: string)
    requires i < |history| && ToLower(history[i].query) != other
    ensures CountOf(history[i := history[i].(count := history[i].count + 1, lastSearched := now)], other)
         == CountOf(history, other)
  {
    var r := history[i := history[i].(count := history[i].count + 1, lastSearched := now)];
    assert forall j :: 0 <= j < |r| ==> ToLower(r[j].query) == ToLower(history[j].query);
    match FindQuery(history, other)
    case Some(k) =>
      FindQueryAt(r, other, k);
    case None =>
      FindQueryNone(r, other);
  }

  lemma PrependOthers(history: seq<HistoryEntry>, q: string, now: string, other: string)
    requires IsLower(q) && q != other && |history| < MaxHistory
    ensures CountOf(Take([HistoryEntry(q, 1, now)] + history, MaxHistory), other) == CountOf(history, other)
  {
    LowerStringUnchanged(q);
    var r := [HistoryEntry(q, 1, now)] + history;
    assert Take(r, MaxHistory) == r;
    assert ToLower(r[0].query) != other;
    match FindQuery(history, other)
    case Some(k) =>
      assert forall j :: 0 <= j < k ==> r[j + 1] == history[j];
      FindQueryAt(r, other, k + 1);
    case None =>
      assert forall j :: 0 < j < |r| ==> r[j] == history[j - 1];
      FindQueryNone(r, other);
  }

  /** The lowercased queries of the history. */
  function Queries(history: seq<HistoryEntry>): (qs: seq<string>)
    ensures |qs| == |history|
    ensures forall i :: 0 <= i < |history| ==> qs[i] == ToLower(history[i].query)
  {
    if history == [] then [] else [ToLower(history[0].query)] + Queries(history[1..])
  }

  /** What recording keeps true of a history that starts empty: at most 50
      entries, no query twice (ignoring case), every count positive. */
  predicate HistoryValid(history: seq<HistoryEntry>) {
    && |history| <= MaxHistory
    && NoDup(Queries(history))
    && forall i :: 0 <= i < |history| ==> history[i].count >= 1
  }

  lemma RecordQueryValid(history: seq<HistoryEntry>, query: string, now: string)
    requires HistoryValid(history)
    ensures HistoryValid(RecordQuery(history, query, now))
  {
    var q := NormalQuery(query);
    if q != [] {
      RecordedValid(history, q, now);
    }
  }

  lemma RecordedValid(history: seq<HistoryEntry>, q: string, now: string)
    requires HistoryValid(history) && IsLower(q)
    ensures HistoryValid(Recorded(history, q, now))
  {
    match FindQuery(history, q)
    case Some(i) =>
      assert Recorded(history, q, now) == history[i := history[i].(count := history[i].count + 1, lastSearched := now)];
      UpdateValid(history, i, now);
    case None =>
      assert Recorded(history, q, now) == Take([HistoryEntry(q, 1, now)] + history, MaxHistory);
      PrependValid(history, q, now);
  }

  lemma UpdateValid(history: seq<HistoryEntry>, i: nat, now: string)
    requires HistoryValid(history) && i < |history|
    ensures HistoryValid(history[i := history[i].(count := history[i].count + 1, lastSearched := now)])
  {
    var r := history[i := history[i].(count := history[i].count + 1, lastSearched := now)];
    assert Queries(r) == Queries(history);
  }

  lemma PrependValid(history: seq<HistoryEntry>, q: string, now: string)
    requires HistoryValid(history) && IsLower(q)
    requires forall j :: 0 <= j < |history| ==> ToLower(history[j].query) != q
    ensures HistoryValid(Take([HistoryEntry(q, 1, now)] + history, MaxHistory))
  {
    LowerStringUnchanged(q);
    var full := [HistoryEntry(q, 1, now)] + history;
    var r := Take(full, MaxHistory);
    var qs := Queries(full);
    assert qs == [q] + Queries(history);
    assert NoDup(qs);
    assert Queries(r) == Take(qs, MaxHistory);
    assert forall k :: 0 <= k < |r| ==> r[k] == full[k];
  }
}
