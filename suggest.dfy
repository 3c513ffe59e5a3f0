/** `getSuggestions(prefix)`: autocomplete candidates from the search
    history (most searched first), the content keywords, the content
    phrases and the tags, each filtered by the lowercased prefix and capped
    per source, then de-duplicated by text and capped at eight. */
module Suggest {
  import opened Text
  import opened Collections
  import opened Corpus

  datatype Kind = HistoryKind | KeywordKind | PhraseKind | TagKind

  datatype Suggestion = Suggestion(text: string, kind: Kind, count: Option<nat>, lastSearched: Option<string>)

  /** Shortest prefix that gets suggestions. */
  const MinPrefix: nat := 2
  /** Per-source caps and the overall cap. */
  const MaxFromHistory: nat := 3
  const MaxFromKeywords: nat := 3
  const MaxFromPhrases: nat := 2
  const MaxFromTags: nat := 2
  const MaxSuggestions: nat := 8

  /** The position of a source in the suggestion list. */
  function Rank(k: Kind): nat {
    match k
    case HistoryKind => 0
    case KeywordKind => 1
    case PhraseKind => 2
    case TagKind => 3
  }

  function HistoryKey(h: HistoryEntry): real { h.count as real }

  /** The history filter: the query, lowercased, contains `lp`. */
  function QueryMentions(lp: string): HistoryEntry -> bool {
    (h: HistoryEntry) => Contains(ToLower(h.query), lp)
  }

  /** The keyword, phrase and tag filter: the text contains `lp`. */
  function TextMentions(lp: string): string -> bool {
    (w: string) => Contains(w, lp)
  }

  function FromHistory(hs: seq<HistoryEntry>): (r: seq<Suggestion>)
    ensures |r| == |hs|
    ensures forall i :: 0 <= i < |hs| ==>
              r[i] == Suggestion(hs[i].query, HistoryKind, Some(hs[i].count), Some(hs[i].lastSearched))
  {
    if hs == [] then [] else [Suggestion(hs[0].query, HistoryKind, Some(hs[0].count), Some(hs[0].lastSearched))] + FromHistory(hs[1..])
  }

  function FromTexts(ws: seq<string>, kind: Kind): (r: seq<Suggestion>)
    ensures |r| == |ws|
    ensures forall i :: 0 <= i < |ws| ==> r[i] == Suggestion(ws[i], kind, None, None)
  {
    if ws == [] then [] else [Suggestion(ws[0], kind, None, None)] + FromTexts(ws[1..], kind)
  }

  /** The history entries offered: matching entries, most searched first
      (ties in history order), at most three. */
  function HistoryMatches(history: seq<HistoryEntry>, lp: string): seq<HistoryEntry> {
    Take(SortDesc(Filter(history, QueryMentions(lp)), HistoryKey), MaxFromHistory)
  }

  /** The history part of the candidates. */
  function HistorySuggestions(history: seq<HistoryEntry>, lp: string): (a: seq<Suggestion>)
    ensures |a| <= MaxFromHistory
    ensures forall x :: x in a ==> x.kind == HistoryKind && x.count.Some?
  {
    var r := FromHistory(HistoryMatches(history, lp));
    assert forall x :: x in r ==> x.kind == HistoryKind && x.count.Some? by {
      forall x | x in r ensures x.kind == HistoryKind && x.count.Some? {
        var i :| 0 <= i < |r| && r[i] == x;
      }
    }
    r
  }

  /** A keyword, phrase or tag part of the candidates: members of `ws` that
      contain `lp`, at most `n`, in list order. */
  function TextSuggestions(ws: seq<string>, lp: string, n: nat, kind: Kind): (b: seq<Suggestion>)
    ensures |b| <= n
    ensures forall x :: x in b ==> x.kind == kind
  {
    var r := FromTexts(Take(Filter(ws, TextMentions(lp)), n), kind);
    assert forall x :: x in r ==> x.kind == kind by {
      forall x | x in r ensures x.kind == kind {
        var i :| 0 <= i < |r| && r[i] == x;
      }
    }
    r
  }

  /** Every source's suggestions, in source order, before de-duplication. */
  function Candidates(history: seq<HistoryEntry>, keywords: seq<string>, phrases: seq<string>,
                      tags: seq<string>, prefix: string): seq<Suggestion>
  {
    var lp := ToLower(prefix);
    HistorySuggestions(history, lp)
    + TextSuggestions(keywords, lp, MaxFromKeywords, KeywordKind)
    + TextSuggestions(phrases, lp, MaxFromPhrases, PhraseKind)
    + TextSuggestions(tags, lp, MaxFromTags, TagKind)
  }

  /** The texts of a list of suggestions. */
  function Texts(ss: seq<Suggestion>): (ts: seq<string>)
    ensures |ts| == |ss|
    ensures forall i :: 0 <= i < |ss| ==> ts[i] == ss[i].text
  {
    if ss == [] then [] else [ss[0].text] + Texts(ss[1..])
  }

  /** The de-duplication loop: keep a suggestion whose text was not seen
      yet, stop once `room` are kept. */
  function Unique(cands: seq<Suggestion>, seen: set<string>, room: nat): (r: seq<Suggestion>)
    ensures |r| <= room
    decreases |cands|
  {
    if cands == [] || room == 0 then []
    else if cands[0].text in seen then Unique(cands[1..], seen, room)
    else [cands[0]] + Unique(cands[1..], seen + {cands[0].text}, room - 1)
  }

  /** The kept suggestions come from the candidates, in their order, with
      no text twice and no text already seen. */
  lemma {:induction false} UniqueFacts(cands: seq<Suggestion>, seen: set<string>, room: nat)
    ensures var r := Unique(cands, seen, room);
            && (forall x :: x in r ==> x in cands && x.text !in seen)
            && NoDup(Texts(r))
    decreases |cands|
  {
    if cands != [] && room > 0 {
      if cands[0].text in seen {
        UniqueFacts(cands[1..], seen, room);
      } else {
        UniqueFacts(cands[1..], seen + {cands[0].text}, room - 1);
        var rest := Unique(cands[1..], seen + {cands[0].text}, room - 1);
        var r := [cands[0]] + rest;
        assert Unique(cands, seen, room) == r;
        forall x | x in r ensures x in cands && x.text !in seen {
          if x != cands[0] {
            assert x in rest;
          }
        }
        assert Texts(r) == [cands[0].text] + Texts(rest);
        forall i | 0 <= i < |rest| ensures Texts(rest)[i] != cands[0].text {
          assert rest[i] in rest;
        }
        NoDupCons(cands[0].text, Texts(rest));
      }
    }
  }

  /** First occurrence wins: a kept suggestion is the first candidate with
      its text, so a text offered by several sources is kept with the
      source that comes first. */
  lemma UniqueFirst(cands: seq<Suggestion>, seen: set<string>, room: nat, x: Suggestion)
    requires x in Unique(cands, seen, room)
    ensures exists i :: 0 <= i < |cands| && cands[i] == x && forall j :: 0 <= j < i ==> cands[j].text != x.text
  {
    var i := UniqueFirstIndex(cands, seen, room, x);
  }

  /** Where `UniqueFirst` finds a kept suggestion among the candidates. */
  lemma {:induction false} UniqueFirstIndex(cands: seq<Suggestion>, seen: set<string>, room: nat, x: Suggestion)
    returns (i: nat)
    requires x in Unique(cands, seen, room)
    ensures i < |cands| && cands[i] == x && x.text !in seen
    ensures forall j :: 0 <= j < i ==> cands[j].text != x.text
    decreases |cands|
  {
    var isNew := cands[0].text !in seen;
    var seen' := if isNew then seen + {cands[0].text} else seen;
    var room' := if isNew then room - 1 else room;
    if isNew && x == cands[0] {
      i := 0;
    } else {
      assert x in Unique(cands[1..], seen', room');
      var k := UniqueFirstIndex(cands[1..], seen', room', x);
      i := k + 1;
      assert cands[i] == cands[1..][k];
      forall j | 0 <= j < i ensures cands[j].text != x.text {
        if j > 0 {
          assert cands[j] == cands[1..][j - 1];
        }
      }
    }
  }


  /** Nothing is lost but duplicates: every candidate's text is kept or
      was seen, unless the list is full. */
  lemma {:induction false} UniqueComplete(cands: seq<Suggestion>, seen: set<string>, room: nat, x: Suggestion)
    requires x in cands
    ensures var r := Unique(cands, seen, room);
            x.text in seen || x.text in Texts(r) || |r| == room
    decreases |cands|
  {
    if cands != [] && room > 0 {
      var r := Unique(cands, seen, room);
      if cands[0].text in seen {
        if x != cands[0] { UniqueComplete(cands[1..], seen, room, x); }
      } else {
        var rest := Unique(cands[1..], seen + {cands[0].text}, room - 1);
        assert Texts(r) == [cands[0].text] + Texts(rest);
        if x != cands[0] { UniqueComplete(cands[1..], seen + {cands[0].text}, room - 1, x); }
      }
    }
  }

  /** Keeping a subsequence keeps any source order. */
  lemma {:induction false} UniqueRanked(cands: seq<Suggestion>, seen: set<string>, room: nat)
    requires forall i, j :: 0 <= i < j < |cands| ==> Rank(cands[i].kind) <= Rank(cands[j].kind)
    ensures var r := Unique(cands, seen, room);
            forall i, j :: 0 <= i < j < |r| ==> Rank(r[i].kind) <= Rank(r[j].kind)
    decreases |cands|
  {
    if cands != [] && room > 0 {
      var seen' := if cands[0].text in seen then seen else seen + {cands[0].text};
      var room' := if cands[0].text in seen then room else room - 1;
      UniqueRanked(cands[1..], seen', room');
      UniqueFacts(cands[1..], seen', room');
      var rest := Unique(cands[1..], seen', room');
      forall x | x in rest ensures Rank(cands[0].kind) <= Rank(x.kind) {
        var k :| 0 <= k < |cands[1..]| && cands[1..][k] == x;
        assert cands[k + 1] == x;
      }
    }
  }

  /** `getSuggestions(prefix)`. */
  function SuggestionsSpec(history: seq<HistoryEntry>, keywords: seq<string>, phrases: seq<string>,
                           tags: seq<string>, prefix: string): (r: seq<Suggestion>)
    ensures |prefix| < MinPrefix ==> r == []
    ensures |r| <= MaxSuggestions
  {
    if |prefix| < MinPrefix then []
    else Unique(Candidates(history, keywords, phrases, tags, prefix), {}, MaxSuggestions)
  }

  /** The de-duplication loop over the candidates. */
  method Deduplicate(cands: seq<Suggestion>) returns (unique: seq<Suggestion>)
    ensures unique == Unique(cands, {}, MaxSuggestions)
  {
    unique := [];
    var seen: set<string> := {};
    for i := 0 to |cands|
      invariant |unique| < MaxSuggestions
      invariant unique + Unique(cands[i..], seen, MaxSuggestions - |unique|) == Unique(cands, {}, MaxSuggestions)
    {
      assert cands[i..][1..] == cands[i + 1..];
      if cands[i].text !in seen {
        seen := seen + {cands[i].text};
        unique := unique + [cands[i]];
        if |unique| >= MaxSuggestions {
          return;
        }
      }
    }
  }

  /** The history part: matching entries with their count and time, most
      searched first. */
  lemma HistoryPart(history: seq<HistoryEntry>, lp: string)
    ensures var a := HistorySuggestions(history, lp);
            && (forall x :: x in a ==>
                  (x.kind == HistoryKind && Contains(ToLower(x.text), lp)
                   && exists h :: h in history && x == Suggestion(h.query, HistoryKind, Some(h.count), Some(h.lastSearched))))
            && (forall i, j :: 0 <= i < j < |a| ==> a[i].count.value >= a[j].count.value)
  {
    HistoryOrdered(history, lp);
    var hm := HistoryMatches(history, lp);
    var f := Filter(history, QueryMentions(lp));
    SortDescCorrect(f, HistoryKey);
    var sorted := SortDesc(f, HistoryKey);
    assert forall i :: 0 <= i < |hm| ==> hm[i] == sorted[i];
    forall h | h in hm ensures h in history && Contains(ToLower(h.query), lp) {
      assert h in sorted;
      assert h in multiset(sorted);
    }
    var a := FromHistory(hm);
    assert a == HistorySuggestions(history, lp);
    forall x | x in a
      ensures x.kind == HistoryKind && Contains(ToLower(x.text), lp)
      ensures exists h :: h in history && x == Suggestion(h.query, HistoryKind, Some(h.count), Some(h.lastSearched))
    {
      var i :| 0 <= i < |a| && a[i] == x;
      assert hm[i] in hm;
    }
  }

  /** The history suggestions are in non-increasing order of count. */
  lemma HistoryOrdered(history: seq<HistoryEntry>, lp: string)
    ensures var a := HistorySuggestions(history, lp);
            forall i, j :: 0 <= i < j < |a| ==> a[i].count.value >= a[j].count.value
  {
    var hm := HistoryMatches(history, lp);
    var f := Filter(history, QueryMentions(lp));
    SortDescCorrect(f, HistoryKey);
    var sorted := SortDesc(f, HistoryKey);
    assert forall i :: 0 <= i < |hm| ==> hm[i] == sorted[i];
    var a := FromHistory(hm);
    assert a == HistorySuggestions(history, lp);
    forall i, j | 0 <= i < j < |a| ensures a[i].count.value >= a[j].count.value {
      assert HistoryKey(sorted[i]) >= HistoryKey(sorted[j]);
    }
  }

  /** A keyword, phrase or tag part: members of the list that contain
      `lp`, at most `n`, in list order. */
  lemma TextPart(ws: seq<string>, lp: string, n: nat, kind: Kind)
    ensures forall x :: x in TextSuggestions(ws, lp, n, kind) ==> x.text in ws && Contains(x.text, lp)
  {
    var t := Take(Filter(ws, TextMentions(lp)), n);
    var b := FromTexts(t, kind);
    assert b == TextSuggestions(ws, lp, n, kind);
    forall x | x in b ensures x.text in ws && Contains(x.text, lp) {
      var i :| 0 <= i < |b| && b[i] == x;
      assert t[i] in Filter(ws, TextMentions(lp));
    }
  }

  /** Where each candidate comes from: history suggestions are entries whose
      query contains the prefix ignoring case, with their count and time;
      the others are keywords, phrases or tags that contain the lowercased
      prefix. */
  lemma CandidatesSources(history: seq<HistoryEntry>, keywords: seq<string>, phrases: seq<string>,
                          tags: seq<string>, prefix: string)
    ensures var c := Candidates(history, keywords, phrases, tags, prefix);
            var lp := ToLower(prefix);
            forall x :: x in c ==> match x.kind
              case HistoryKind => Contains(ToLower(x.text), lp)
                  && exists h :: h in history && x == Suggestion(h.query, HistoryKind, Some(h.count), Some(h.lastSearched))
              case KeywordKind => x.text in keywords && Contains(x.text, lp)
              case PhraseKind => x.text in phrases && Contains(x.text, lp)
              case TagKind => x.text in tags && Contains(x.text, lp)
  {
    var lp := ToLower(prefix);
    HistoryPart(history, lp);
    TextPart(keywords, lp, MaxFromKeywords, KeywordKind);
    TextPart(phrases, lp, MaxFromPhrases, PhraseKind);
    TextPart(tags, lp, MaxFromTags, TagKind);
  }

  /** Four parts, each of one source, concatenated in source order. */
  lemma PartsRanked(a: seq<Suggestion>, b: seq<Suggestion>, d: seq<Suggestion>, e: seq<Suggestion>)
    requires forall x :: x in a ==> x.kind == HistoryKind
    requires forall x :: x in b ==> x.kind == KeywordKind
    requires forall x :: x in d ==> x.kind == PhraseKind
    requires forall x :: x in e ==> x.kind == TagKind
    ensures var c := a + b + d + e;
            forall i, j :: 0 <= i < j < |c| ==> Rank(c[i].kind) <= Rank(c[j].kind)
    ensures var c := a + b + d + e;
            forall j :: 0 <= j < |c| && c[j].kind == HistoryKind ==> j < |a| && c[j] == a[j]
  {
    var c := a + b + d + e;
    forall i | 0 <= i < |c|
      ensures Rank(c[i].kind) == if i < |a| then 0 else if i < |a| + |b| then 1 else if i < |a| + |b| + |d| then 2 else 3
    {
      if i < |a| { assert c[i] == a[i] && c[i] in a; }
      else if i < |a| + |b| { assert c[i] == b[i - |a|] && c[i] in b; }
      else if i < |a| + |b| + |d| { assert c[i] == d[i - |a| - |b|] && c[i] in d; }
      else { assert c[i] == e[i - |a| - |b| - |d|] && c[i] in e; }
    }
  }

  /** Sources appear in order, at most 3, 3, 2 and 2 of them. */
  lemma CandidatesOrder(history: seq<HistoryEntry>, keywords: seq<string>, phrases: seq<string>,
                        tags: seq<string>, prefix: string)
    ensures var c := Candidates(history, keywords, phrases, tags, prefix);
            && |c| <= MaxFromHistory + MaxFromKeywords + MaxFromPhrases + MaxFromTags
            && forall i, j :: 0 <= i < j < |c| ==> Rank(c[i].kind) <= Rank(c[j].kind)
  {
    var lp := ToLower(prefix);
    PartsRanked(HistorySuggestions(history, lp), TextSuggestions(keywords, lp, MaxFromKeywords, KeywordKind),
                TextSuggestions(phrases, lp, MaxFromPhrases, PhraseKind), TextSuggestions(tags, lp, MaxFromTags, TagKind));
  }

  /** The history suggestions come first, most searched first. */
  lemma CandidatesHistoryOrdered(history: seq<HistoryEntry>, keywords: seq<string>, phrases: seq<string>,
                                 tags: seq<string>, prefix: string)
    ensures var c := Candidates(history, keywords, phrases, tags, prefix);
            forall i, j :: 0 <= i < j < |c| && c[j].kind == HistoryKind ==>
              && c[i].kind == HistoryKind && c[i].count.Some? && c[j].count.Some?
              && c[i].count.value >= c[j].count.value
  {
    var lp := ToLower(prefix);
    HistoryOrdered(history, lp);
    HistoryFirst(HistorySuggestions(history, lp), TextSuggestions(keywords, lp, MaxFromKeywords, KeywordKind),
                 TextSuggestions(phrases, lp, MaxFromPhrases, PhraseKind), TextSuggestions(tags, lp, MaxFromTags, TagKind));
  }

  /** `CandidatesHistoryOrdered` for any four parts of one source each. */
  lemma HistoryFirst(a: seq<Suggestion>, b: seq<Suggestion>, d: seq<Suggestion>, e: seq<Suggestion>)
    requires forall x :: x in a ==> x.kind == HistoryKind && x.count.Some?
    requires forall x :: x in b ==> x.kind == KeywordKind
    requires forall x :: x in d ==> x.kind == PhraseKind
    requires forall x :: x in e ==> x.kind == TagKind
    requires forall i, j :: 0 <= i < j < |a| ==> a[i].count.value >= a[j].count.value
    ensures var c := a + b + d + e;
            forall i, j :: 0 <= i < j < |c| && c[j].kind == HistoryKind ==>
              && c[i].kind == HistoryKind && c[i].count.Some? && c[j].count.Some?
              && c[i].count.value >= c[j].count.value
  {
    PartsRanked(a, b, d, e);
    var c := a + b + d + e;
    forall i, j | 0 <= i < j < |c| && c[j].kind == HistoryKind
      ensures && c[i].kind == HistoryKind && c[i].count.Some? && c[j].count.Some?
              && c[i].count.value >= c[j].count.value
    {
      assert c[i] == a[i] && c[j] == a[j];
      assert a[i] in a && a[j] in a;
    }
  }

}
