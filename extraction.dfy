/** `extractKeywords` and `extractPhrases`: the corpus text is lowercased,
    stripped of a fixed punctuation class, split on whitespace runs and
    filtered; the surviving tokens (keywords) or their 2- and 3-token
    windows (phrases) are counted and ranked by frequency. */
module Extraction {
  import opened Text
  import opened Collections
  import opened Frequency

  /** The class [.,\/#!$%\^&\*;:{}=\-_`~()] removed before splitting. */
  predicate IsStripped(c: char) {
    c in {'.', ',', '/', '#', '!', '$', '%', '^', '&', '*', ';', ':', '{', '}', '=', '-', '_', '`', '~', '(', ')'}
  }

  /** `text.toLowerCase().replace(/[...]/g, "").split(/\s+/)`. */
  function Tokens(text: string): (ts: seq<string>)
    ensures forall k :: 0 <= k < |ts| ==> IsLower(ts[k])
    ensures forall k :: 0 <= k < |ts| ==>
              forall j :: 0 <= j < |ts[k]| ==> !IsSpace(ts[k][j]) && !IsStripped(ts[k][j])
  {
    var clean := Without(ToLower(text), IsStripped);
    ToLowerIsLower(text);
    WithoutKeeps(ToLower(text), IsStripped, c => !IsUpper(c));
    SplitRunsKeeps(clean, IsSpace, c => !IsUpper(c) && !IsStripped(c));
    SplitRuns(clean, IsSpace)
  }

  /** The stopwords of `extractKeywords`. */
  const StopWords: set<string> := {
    "a", "about", "above", "after", "again", "against", "all", "am", "an", "and", "any",
    "are", "aren't", "as", "at", "be", "because", "been", "before", "being", "below",
    "between", "both", "but", "by", "can't", "cannot", "could", "couldn't", "did",
    "didn't", "do", "does", "doesn't", "doing", "don't", "down", "during", "each", "few",
    "for", "from", "further", "had", "hadn't", "has", "hasn't", "have", "haven't",
    "having", "he", "he'd", "he'll", "he's", "her", "here", "here's", "hers", "herself",
    "him", "himself", "his", "how", "how's", "i", "i'd", "i'll", "i'm", "i've", "if", "in",
    "into", "is", "isn't", "it", "it's", "its", "itself", "let's", "me", "more", "most",
    "mustn't", "my", "myself", "no", "nor", "not", "of", "off", "on", "once", "only", "or",
    "other", "ought", "our", "ours", "ourselves", "out", "over", "own", "same", "shan't",
    "she", "she'd", "she'll", "she's", "should", "shouldn't", "so", "some", "such", "than",
    "that", "that's", "the", "their", "theirs", "them", "themselves", "then", "there",
    "there's", "these", "they", "they'd", "they'll", "they're", "they've", "this", "those",
    "through", "to", "too", "under", "until", "up", "very", "was", "wasn't", "we", "we'd",
    "we'll", "we're", "we've", "were", "weren't", "what", "what's", "when", "when's",
    "where", "where's", "which", "while", "who", "who's", "whom", "why", "why's", "with",
    "won't", "would", "wouldn't", "you", "you'd", "you'll", "you're", "you've", "your",
    "yours", "yourself", "yourselves"
  }

  /** The lighter stopword list of `extractPhrases`. */
  const PhraseStopWords: set<string> := {
    "a", "an", "the", "and", "or", "but", "is", "are", "was", "were", "be", "been",
    "being", "to", "of", "in", "for", "with", "by", "at", "this", "that", "these", "those",
    "it", "its"
  }

  predicate IsKeywordToken(w: string) {
    |w| > 3 && w !in StopWords
  }

  predicate IsPhraseToken(w: string) {
    |w| > 2 && w !in PhraseStopWords
  }

  /** `extractKeywords` ranks every counted word: its entry filter keeps all. */
  predicate KeepAll(e: Entry) { true }

  /** `extractPhrases` keeps only phrases seen more than once. */
  predicate Repeated(e: Entry) { e.count > 1 }

  function KeywordTokens(text: string): seq<string> {
    Filter(Tokens(text), IsKeywordToken)
  }

  function PhraseTokens(text: string): seq<string> {
    Filter(Tokens(text), IsPhraseToken)
  }

  /** The keywords of `text`, most frequent first. */
  function Keywords(text: string, maxKeywords: nat): seq<string> {
    TopKeys(KeywordTokens(text), KeepAll, maxKeywords)
  }

  method ExtractKeywords(text: string, maxKeywords: nat) returns (keywords: seq<string>)
    ensures keywords == Keywords(text, maxKeywords)
  {
    var words := Filter(Tokens(text), IsKeywordToken);
    var order, counts := Tally(words);
    TalliedTable(order, counts, words);
    keywords := KeysOf(Take(SortDesc(Filter(EntriesOf(order, counts), KeepAll), CountKey), maxKeywords));
  }

  /** A lowercase token of more than three characters, free of whitespace
      and of the stripped punctuation, and not a stopword. */
  predicate KeywordShaped(w: string) {
    && IsLower(w) && IsKeywordToken(w)
    && forall j :: 0 <= j < |w| ==> !IsSpace(w[j]) && !IsStripped(w[j])
  }

  /** Every keyword is a keyword-shaped token of the text; there are at
      most `maxKeywords` of them, none twice, in non-increasing order of
      frequency among the filtered tokens; and a filtered token left out
      was outranked by `maxKeywords` keywords. */
  lemma KeywordsCorrect(text: string, maxKeywords: nat)
    ensures var r := Keywords(text, maxKeywords);
      var ws := KeywordTokens(text);
      && |r| <= maxKeywords
      && NoDup(r)
      && (forall i :: 0 <= i < |r| ==> r[i] in ws && KeywordShaped(r[i]))
      && (forall i, j :: 0 <= i < j < |r| ==> Occ(ws, r[i]) >= Occ(ws, r[j]))
      && (forall w :: w in ws && w !in r ==>
            |r| == maxKeywords && forall i :: 0 <= i < |r| ==> Occ(ws, r[i]) >= Occ(ws, w))
  {
    var ws := KeywordTokens(text);
    var ts := Tokens(text);
    forall k | 0 <= k < |ws| ensures KeywordShaped(ws[k]) {
      assert ws[k] in ts;
    }
    RankedKeywords(ws, maxKeywords, KeywordShaped);
  }

  /** `KeywordsCorrect` for any list of tokens that all satisfy `shaped`. */
  lemma RankedKeywords(ws: seq<string>, n: nat, shaped: string -> bool)
    requires forall k :: 0 <= k < |ws| ==> shaped(ws[k])
    ensures var r := TopKeys(ws, KeepAll, n);
      && |r| <= n
      && NoDup(r)
      && (forall i :: 0 <= i < |r| ==> r[i] in ws && shaped(r[i]))
      && (forall i, j :: 0 <= i < j < |r| ==> Occ(ws, r[i]) >= Occ(ws, r[j]))
      && (forall w :: w in ws && w !in r ==>
            |r| == n && forall i :: 0 <= i < |r| ==> Occ(ws, r[i]) >= Occ(ws, w))
  {
    var r := TopKeys(ws, KeepAll, n);
    TopKeysMembers(ws, KeepAll, n);
    TopKeysOrdered(ws, KeepAll, n);
    forall i | 0 <= i < |r| ensures shaped(r[i]) {
      var k :| 0 <= k < |ws| && ws[k] == r[i];
    }
    forall w | w in ws && w !in r
      ensures |r| == n && forall i :: 0 <= i < |r| ==> Occ(ws, r[i]) >= Occ(ws, w)
    {
      TopKeysComplete(ws, KeepAll, n, w);
    }
  }

  /** `${f[i]} ${f[i + 1]}` */
  function Bigram(f: seq<string>, i: nat): string
    requires i + 1 < |f|
  {
    f[i] + " " + f[i + 1]
  }

  /** `${f[i]} ${f[i + 1]} ${f[i + 2]}` */
  function Trigram(f: seq<string>, i: nat): string
    requires i + 2 < |f|
  {
    f[i] + " " + f[i + 1] + " " + f[i + 2]
  }

  function Bigrams(f: seq<string>): (b: seq<string>)
    ensures |b| == if |f| < 2 then 0 else |f| - 1
  {
    if |f| < 2 then [] else seq(|f| - 1, i requires 0 <= i < |f| - 1 => Bigram(f, i))
  }

  function Trigrams(f: seq<string>): (t: seq<string>)
    ensures |t| == if |f| < 3 then 0 else |f| - 2
  {
    if |f| < 3 then [] else seq(|f| - 2, i requires 0 <= i < |f| - 2 => Trigram(f, i))
  }

  /** Every window counted, in counting order: all 2-token windows, then
      all 3-token windows, into one table. */
  function Windows(f: seq<string>): seq<string> {
    Bigrams(f) + Trigrams(f)
  }

  /** The frequent phrases of `text`, most frequent first. */
  function Phrases(text: string, maxPhrases: nat): seq<string> {
    TopKeys(Windows(PhraseTokens(text)), Repeated, maxPhrases)
  }

  method ExtractPhrases(text: string, maxPhrases: nat) returns (phrases: seq<string>)
    ensures phrases == Phrases(text, maxPhrases)
  {
    var f := Filter(Tokens(text), IsPhraseToken);
    var order, counts := CountBigrams(f);
    order, counts := CountTrigrams(f, order, counts);
    TalliedTable(order, counts, Windows(f));
    phrases := KeysOf(Take(SortDesc(Filter(EntriesOf(order, counts), Repeated), CountKey), maxPhrases));
  }

  /** The first counting loop of `extractPhrases`: every 2-token window. */
  method CountBigrams(f: seq<string>) returns (order: seq<string>, counts: map<string, nat>)
    ensures Tallies(order, counts, Bigrams(f))
  {
    ghost var bi := Bigrams(f);
    order, counts := [], map[];
    var i := 0;
    while i + 1 < |f|
      invariant i <= |bi|
      invariant Tallies(order, counts, bi[..i])
    {
      assert bi[..i + 1] == bi[..i] + [Bigram(f, i)];
      order, counts := Record(order, counts, bi[..i], Bigram(f, i));
      i := i + 1;
    }
    assert bi[..i] == bi;
  }

  /** The second counting loop of `extractPhrases`: every 3-token window,
      into the table the first loop filled. */
  method CountTrigrams(f: seq<string>, order0: seq<string>, counts0: map<string, nat>)
    returns (order: seq<string>, counts: map<string, nat>)
    requires Tallies(order0, counts0, Bigrams(f))
    ensures Tallies(order, counts, Windows(f))
  {
    ghost var bi, tri := Bigrams(f), Trigrams(f);
    order, counts := order0, counts0;
    var i := 0;
    assert bi + tri[..0] == bi;
    while i + 2 < |f|
      invariant i <= |tri|
      invariant Tallies(order, counts, bi + tri[..i])
    {
      TrigramStep(f, bi, i);
      order, counts := Record(order, counts, bi + Trigrams(f)[..i], Trigram(f, i));
      i := i + 1;
    }
    assert tri[..i] == tri;
  }

  lemma TrigramStep(f: seq<string>, bi: seq<string>, i: nat)
    requires i + 2 < |f|
    ensures bi + Trigrams(f)[..i + 1] == (bi + Trigrams(f)[..i]) + [Trigram(f, i)]
  {
    var tri := Trigrams(f);
    assert tri[i] == Trigram(f, i);
    assert tri[..i + 1] == tri[..i] + [tri[i]];
  }

  /** Each counted window is two or three consecutive filtered tokens joined
      by single spaces. */
  lemma WindowShape(f: seq<string>, p: string)
    requires p in Windows(f)
    ensures (exists i :: 0 <= i && i + 1 < |f| && p == Bigram(f, i))
         || (exists i :: 0 <= i && i + 2 < |f| && p == Trigram(f, i))
  {
    if p in Bigrams(f) {
      var i :| 0 <= i < |Bigrams(f)| && Bigrams(f)[i] == p;
      assert p == Bigram(f, i);
    } else {
      var i :| 0 <= i < |Trigrams(f)| && Trigrams(f)[i] == p;
      assert p == Trigram(f, i);
    }
  }

  /** At most `maxPhrases` phrases, none twice, each a window of filtered
      tokens that occurs more than once, in non-increasing frequency; a
      repeated window left out was outranked by `maxPhrases` phrases. */
  lemma PhrasesCorrect(text: string, maxPhrases: nat)
    ensures var r := Phrases(text, maxPhrases);
      var ws := Windows(PhraseTokens(text));
      && |r| <= maxPhrases
      && NoDup(r)
      && (forall i :: 0 <= i < |r| ==> r[i] in ws && Occ(ws, r[i]) > 1)
      && (forall i, j :: 0 <= i < j < |r| ==> Occ(ws, r[i]) >= Occ(ws, r[j]))
      && (forall w :: w in ws && Occ(ws, w) > 1 && w !in r ==>
            |r| == maxPhrases && forall i :: 0 <= i < |r| ==> Occ(ws, r[i]) >= Occ(ws, w))
  {
    var ws := Windows(PhraseTokens(text));
    var r := Phrases(text, maxPhrases);
    TopKeysMembers(ws, Repeated, maxPhrases);
    TopKeysOrdered(ws, Repeated, maxPhrases);
    forall w | w in ws && Occ(ws, w) > 1 && w !in r
      ensures |r| == maxPhrases && forall i :: 0 <= i < |r| ==> Occ(ws, r[i]) >= Occ(ws, w)
    {
      TopKeysComplete(ws, Repeated, maxPhrases, w);
    }
  }

  /** A window seen only once is never a phrase. */
  lemma SingleWindowNeverPhrase(text: string, maxPhrases: nat, w: string)
    requires Occ(Windows(PhraseTokens(text)), w) <= 1
    ensures w !in Phrases(text, maxPhrases)
  {
    PhrasesCorrect(text, maxPhrases);
  }
}
