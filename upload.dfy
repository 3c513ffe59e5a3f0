/** The text helpers of the upload form: the summary of an uploaded text,
    the tags it suggests, adding a tag, the default title taken from the
    file name and the tag autofill. */
module Upload {
  import opened Text
  import opened Collections
  import opened Frequency
  import Extraction
  import Highlight

  /** Texts shorter than this are their own summary. */
  const ShortText: nat := 200
  /** A first paragraph longer than this is the summary body. */
  const MinParagraph: nat := 100
  /** Sentences are added while their total length is below this. */
  const SentenceBudget: nat := 500
  /** Most key terms listed after the summary. */
  const MaxKeyTerms: nat := 5
  const KeyTermsLabel: string := "\n\nKey terms: "
  /** Most capitalized phrases and most frequent words among the tags. */
  const MaxCapsTags: nat := 3
  const MaxWordTags: nat := 5
  /** Longer tags are cut to this length and marked with "...". */
  const MaxTagLength: nat := 15
  /** How many suggested tags the autofill copies. */
  const AutofillCount: nat := 3

  // ---------------------------------------------------------------------
  // Words: `text.toLowerCase().match(/\b[a-z]{4,}\b/g)`
  // ---------------------------------------------------------------------

  predicate IsNonWord(c: char) { !IsWordChar(c) }

  predicate IsLongWord(w: string) {
    |w| >= 4 && forall j :: 0 <= j < |w| ==> IsLowerLetter(w[j])
  }

  /** A match of `\b[a-z]{4,}\b` begins where a run of word characters
      begins and must end where that run ends, so the matches are the runs
      of word characters that are four or more lowercase letters. */
  function LongWords(text: string): (ws: seq<string>)
    ensures forall k :: 0 <= k < |ws| ==> IsLongWord(ws[k])
  {
    Filter(SplitRuns(ToLower(text), IsNonWord), IsLongWord)
  }

  // ---------------------------------------------------------------------
  // generateSummary
  // ---------------------------------------------------------------------

  /** Some newline lies ahead of `k` before the whitespace ends. */
  predicate NewlineAhead(s: string, k: nat)
    decreases |s| - k
  {
    k < |s| && IsSpace(s[k]) && (s[k] == '\n' || NewlineAhead(s, k + 1))
  }

  /** `/\n\s*\n/` matches at `i`. */
  predicate BlankLineAt(s: string, i: nat) {
    i < |s| && s[i] == '\n' && NewlineAhead(s, i + 1)
  }

  /** The first position at or after `i` where a blank line starts. */
  function FirstBlankLine(s: string, i: nat): (k: nat)
    requires i <= |s|
    ensures i <= k <= |s|
    ensures forall j :: i <= j < k ==> !BlankLineAt(s, j)
    ensures k < |s| ==> BlankLineAt(s, k)
    decreases |s| - i
  {
    if i == |s| || BlankLineAt(s, i) then i else FirstBlankLine(s, i + 1)
  }

  /** `text.split(/\n\s*\n/)[0]`: the text before the first blank line,
      or all of it. */
  function FirstParagraph(text: string): (p: string)
    ensures p <= text
    ensures forall j :: 0 <= j < |p| ==> !BlankLineAt(text, j)
    ensures |p| < |text| ==> BlankLineAt(text, |p|)
  {
    text[..FirstBlankLine(text, 0)]
  }

  /** `/[.!?]+\s+/` matches at `i`: the run of sentence ends that starts
      there is followed by whitespace (a shorter run would be followed by
      another sentence end, so only the whole run can match). */
  predicate SentenceBreakAt(s: string, i: nat) {
    i < |s| && Highlight.IsSentenceEnd(s[i])
    && var e := RunEnd(s, Highlight.IsSentenceEnd, i); e < |s| && IsSpace(s[e])
  }

  function FirstSentenceBreak(s: string, i: nat): (k: nat)
    requires i <= |s|
    ensures i <= k <= |s|
    ensures forall j :: i <= j < k ==> !SentenceBreakAt(s, j)
    ensures k < |s| ==> SentenceBreakAt(s, k)
    decreases |s| - i
  {
    if i == |s| || SentenceBreakAt(s, i) then i else FirstSentenceBreak(s, i + 1)
  }

  /** `text.split(/[.!?]+\s+/)`: the pieces between the matches, each match
      running over the whole run of sentence ends and the whole run of
      whitespace after it. */
  function SplitSentences(s: string): (pieces: seq<string>)
    ensures |pieces| >= 1
    decreases |s|
  {
    var k := FirstSentenceBreak(s, 0);
    if k == |s| then [s]
    else
      var e := RunEnd(s, IsSpace, RunEnd(s, Highlight.IsSentenceEnd, k));
      [s[..k]] + SplitSentences(s[e..])
  }

  /** A run ends at the same place in a prefix, unless the prefix is cut
      before it ends. */
  lemma {:induction false} RunEndPrefix(s: string, p: char -> bool, i: nat, k: nat)
    requires i <= k <= |s|
    ensures RunEnd(s[..k], p, i) == if RunEnd(s, p, i) <= k then RunEnd(s, p, i) else k
    decreases k - i
  {
    if i < k && p(s[i]) {
      RunEndPrefix(s, p, i + 1, k);
    }
  }

  /** A position before the first break is no break in the prefix either. */
  lemma NoBreakInPrefix(s: string, k: nat, j: nat)
    requires j < k <= |s| && !SentenceBreakAt(s, j)
    ensures !SentenceBreakAt(s[..k], j)
  {
    var t := s[..k];
    if Highlight.IsSentenceEnd(s[j]) {
      RunEndPrefix(s, Highlight.IsSentenceEnd, j, k);
      var e := RunEnd(s, Highlight.IsSentenceEnd, j);
      var e' := RunEnd(t, Highlight.IsSentenceEnd, j);
      if e < k {
        assert e' == e && t[e] == s[e];
      } else {
        assert e' == k == |t|;
      }
    }
  }

  /** No piece holds a sentence break of its own. */
  lemma {:induction false} SplitSentencesNoBreak(s: string)
    ensures var ps := SplitSentences(s);
            forall n, j :: 0 <= n < |ps| && 0 <= j < |ps[n]| ==> !SentenceBreakAt(ps[n], j)
    decreases |s|
  {
    var k := FirstSentenceBreak(s, 0);
    var ps := SplitSentences(s);
    forall j | 0 <= j < k ensures !SentenceBreakAt(s[..k], j) {
      NoBreakInPrefix(s, k, j);
    }
    if k < |s| {
      var e := RunEnd(s, IsSpace, RunEnd(s, Highlight.IsSentenceEnd, k));
      SplitSentencesNoBreak(s[e..]);
      assert ps == [s[..k]] + SplitSentences(s[e..]);
    } else {
      assert s[..k] == s;
    }
  }

  /** Total length of some strings. */
  function TotalLength(ss: seq<string>): nat {
    if ss == [] then 0 else |ss[0]| + TotalLength(ss[1..])
  }

  /** Each string followed by ". ". */
  function Dotted(ss: seq<string>): (r: string) {
    if ss == [] then [] else ss[0] + ". " + Dotted(ss[1..])
  }

  /** What the sentence loop adds to the summary, having already counted
      `used` characters: the next sentence and ". " while the count is
      below the budget. */
  function Lead(ss: seq<string>, used: nat): string
    decreases |ss|
  {
    if ss == [] || used >= SentenceBudget then [] else ss[0] + ". " + Lead(ss[1..], used + |ss[0]|)
  }

  /** How many sentences the loop takes. */
  function LeadCount(ss: seq<string>, used: nat): (n: nat)
    ensures n <= |ss|
    decreases |ss|
  {
    if ss == [] || used >= SentenceBudget then 0 else 1 + LeadCount(ss[1..], used + |ss[0]|)
  }

  /** The loop takes the shortest run of leading sentences whose lengths
      reach the budget, or all of them: every sentence it takes started
      below the budget, and it stops only at the end or at the budget. */
  lemma {:induction false} LeadShape(ss: seq<string>, used: nat)
    ensures var n := LeadCount(ss, used);
            && Lead(ss, used) == Dotted(ss[..n])
            && (n == 0 <==> ss == [] || used >= SentenceBudget)
            && (n > 0 ==> used + TotalLength(ss[..n - 1]) < SentenceBudget)
            && (n < |ss| ==> used + TotalLength(ss[..n]) >= SentenceBudget)
    decreases |ss|
  {
    var n := LeadCount(ss, used);
    if ss == [] || used >= SentenceBudget {
      assert ss[..0] == [];
    } else {
      var rest := ss[1..];
      var used' := used + |ss[0]|;
      LeadShape(rest, used');
      assert ss[..n][1..] == rest[..n - 1];
      assert ss[..n][0] == ss[0];
      if n > 1 {
        assert ss[..n - 1][1..] == rest[..n - 2];
      }
      if n < |ss| {
        assert ss[..n][1..] == rest[..n - 1];
      }
    }
  }

  /** The key terms: words of four or more letters seen more than once,
      most frequent first, at most five. */
  function KeyTerms(text: string): seq<string> {
    TopKeys(LongWords(text), Extraction.Repeated, MaxKeyTerms)
  }

  /** `generateSummary(text)`. */
  function Summary(text: string): (r: string)
    ensures |text| < ShortText ==> r == text
  {
    if |text| < ShortText then text
    else Assemble(FirstParagraph(text), SplitSentences(text), KeyTerms(text))
  }

  /** The summary of a long text from its first paragraph, its sentences
      and its key terms. */
  function Assemble(first: string, ss: seq<string>, top: seq<string>): string {
    var body := if |first| > MinParagraph then first else Lead(ss, 0);
    if top == [] then body else body + KeyTermsLabel + Join(top, ", ")
  }

  /** A text of 200 characters or more is summarized by its first paragraph
      when that is longer than 100 characters, otherwise by its leading
      sentences each followed by ". " (the shortest run that reaches the
      budget, or all of them, and at least one); the key terms follow, when
      there are any. `SplitSentences` always gives at least one sentence. */
  lemma AssembleShape(first: string, ss: seq<string>, top: seq<string>)
    requires |ss| >= 1
    ensures var n := LeadCount(ss, 0);
            var body := if |first| > MinParagraph then first else Dotted(ss[..n]);
            && Assemble(first, ss, top) == (if top == [] then body else body + KeyTermsLabel + Join(top, ", "))
            && (|first| <= MinParagraph ==> n >= 1 && TotalLength(ss[..n - 1]) < SentenceBudget
                                            && (n < |ss| ==> TotalLength(ss[..n]) >= SentenceBudget))
  {
    LeadShape(ss, 0);
  }

  /** Every key term is a lowercase word of four or more letters that
      occurs more than once; there are at most five, none twice, most
      frequent first; a repeated word left out was crowded out by five
      words at least as frequent. */
  lemma KeyTermsCorrect(text: string, w: string)
    ensures var ws := LongWords(text);
            var r := KeyTerms(text);
            && |r| <= MaxKeyTerms && NoDup(r)
            && (forall i :: 0 <= i < |r| ==> IsLongWord(r[i]) && Occ(ws, r[i]) > 1)
            && (forall i, j :: 0 <= i < j < |r| ==> Occ(ws, r[i]) >= Occ(ws, r[j]))
            && (w in ws && Occ(ws, w) > 1 && w !in r ==>
                  |r| == MaxKeyTerms && forall i :: 0 <= i < |r| ==> Occ(ws, r[i]) >= Occ(ws, w))
  {
    RepeatedWordsCorrect(LongWords(text), w);
  }

  /** `KeyTermsCorrect` for any list of long words. */
  lemma RepeatedWordsCorrect(ws: seq<string>, w: string)
    requires forall k :: 0 <= k < |ws| ==> IsLongWord(ws[k])
    ensures var r := TopKeys(ws, Extraction.Repeated, MaxKeyTerms);
            && |r| <= MaxKeyTerms && NoDup(r)
            && (forall i :: 0 <= i < |r| ==> IsLongWord(r[i]) && Occ(ws, r[i]) > 1)
            && (forall i, j :: 0 <= i < j < |r| ==> Occ(ws, r[i]) >= Occ(ws, r[j]))
            && (w in ws && Occ(ws, w) > 1 && w !in r ==>
                  |r| == MaxKeyTerms && forall i :: 0 <= i < |r| ==> Occ(ws, r[i]) >= Occ(ws, w))
  {
    var r := TopKeys(ws, Extraction.Repeated, MaxKeyTerms);
    TopKeysMembers(ws, Extraction.Repeated, MaxKeyTerms);
    TopKeysOrdered(ws, Extraction.Repeated, MaxKeyTerms);
    forall i | 0 <= i < |r| ensures IsLongWord(r[i]) {
      var k :| 0 <= k < |ws| && ws[k] == r[i];
    }
    if w in ws && Occ(ws, w) > 1 && w !in r {
      TopKeysComplete(ws, Extraction.Repeated, MaxKeyTerms, w);
    }
  }

  /** The sentence loop of `generateSummary`. */
  method LeadSentences(sentences: seq<string>) returns (summary: string)
    ensures summary == Lead(sentences, 0)
  {
    summary := "";
    var used: nat := 0;
    var i := 0;
    while i < |sentences| && used < SentenceBudget
      invariant 0 <= i <= |sentences|
      invariant summary + Lead(sentences[i..], used) == Lead(sentences, 0)
    {
      assert sentences[i..][1..] == sentences[i + 1..];
      summary := summary + sentences[i] + ". ";
      used := used + |sentences[i]|;
      i := i + 1;
    }
  }

  /** The word-frequency loop of `generateSummary` and the chain after it. */
  method RepeatedWords(words: seq<string>) returns (top: seq<string>)
    ensures top == TopKeys(words, Extraction.Repeated, MaxKeyTerms)
  {
    var order, counts := Tally(words);
    TalliedTable(order, counts, words);
    top := KeysOf(Take(SortDesc(Filter(EntriesOf(order, counts), Extraction.Repeated), CountKey), MaxKeyTerms));
  }

  /** `generateSummary`. */
  method GenerateSummary(text: string) returns (summary: string)
    ensures summary == Summary(text)
  {
    if |text| < ShortText {
      return text;
    }
    var first := FirstParagraph(text);
    if |first| > MinParagraph {
      summary := first;
    } else {
      summary := LeadSentences(SplitSentences(text));
    }
    var top := RepeatedWords(LongWords(text));
    if |top| > 0 {
      summary := summary + KeyTermsLabel + Join(top, ", ");
    }
  }

  // ---------------------------------------------------------------------
  // extractPotentialTags: `/\b[A-Z][a-z]+ (?:[A-Z][a-z]+ )*[A-Z][a-z]+\b/g`
  // ---------------------------------------------------------------------

  predicate IsLetter(c: char) { IsUpper(c) || IsLowerLetter(c) }

  /** Where `[A-Z][a-z]+` starting at `i` ends: a capital, then every
      lowercase letter that follows (a shorter run would leave a lowercase
      letter where a space or a boundary is needed). */
  function CapWord(s: string, i: nat): (e: Option<nat>)
    requires i <= |s|
    ensures e.Some? ==> i + 2 <= e.value <= |s| && IsUpper(s[i])
                        && (forall j :: i < j < e.value ==> IsLowerLetter(s[j]))
                        && (e.value < |s| ==> !IsLowerLetter(s[e.value]))
  {
    if i + 1 < |s| && IsUpper(s[i]) && IsLowerLetter(s[i + 1]) then Some(RunEnd(s, IsLowerLetter, i + 1)) else None
  }

  /** The ends of the capitalized words joined by single spaces, starting
      with a word that ends at `e`. */
  function ChainEnds(s: string, e: nat): (ends: seq<nat>)
    requires e <= |s|
    ensures |ends| >= 1 && ends[0] == e
    ensures forall a, b :: 0 <= a < b < |ends| ==> ends[a] < ends[b]
    ensures forall a :: 0 <= a < |ends| ==> ends[a] <= |s|
    ensures |ends| >= 2 ==> e < |s| && s[e] == ' '
    ensures forall j :: e <= j < ends[|ends| - 1] ==> s[j] == ' ' || IsLetter(s[j])
    decreases |s| - e
  {
    if e < |s| && s[e] == ' ' && CapWord(s, e + 1).Some? then [e] + ChainEnds(s, CapWord(s, e + 1).value) else [e]
  }

  /** Where the capitalized-phrase regex matching at `i` ends. The star
      takes every following word that is followed by a space; the last
      word must then end at a boundary, and when it does not, the star
      gives back one word, whose following space is a boundary. */
  function CapsMatchAt(s: string, i: nat): (m: Option<nat>)
    requires i <= |s|
    ensures m.Some? ==> i < m.value <= |s|
  {
    if !Boundary(s, i) then None
    else
      match CapWord(s, i)
      case None => None
      case Some(e) =>
        var ends := ChainEnds(s, e);
        var last := ends[|ends| - 1];
        if Boundary(s, last) then (if |ends| >= 2 then Some(last) else None)
        else if |ends| >= 3 then Some(ends[|ends| - 2])
        else None
  }

  /** The global match: a match resumes the search where it ends; a
      position with no match moves it on by one. */
  function CapsPhrases(s: string, i: nat): (ps: seq<string>)
    requires i <= |s|
    decreases |s| - i
  {
    if i == |s| then []
    else
      match CapsMatchAt(s, i)
      case Some(m) => [s[i..m]] + CapsPhrases(s, m)
      case None => CapsPhrases(s, i + 1)
  }

  /** A capitalized phrase: a capital first, a space inside, only letters
      and spaces. */
  predicate IsCapsPhrase(p: string) {
    && |p| > 0 && IsUpper(p[0]) && ' ' in p
    && forall j :: 0 <= j < |p| ==> p[j] == ' ' || IsLetter(p[j])
  }

  lemma CapsMatchShape(s: string, i: nat)
    requires i <= |s| && CapsMatchAt(s, i).Some?
    ensures IsCapsPhrase(s[i..CapsMatchAt(s, i).value])
  {
    var e := CapWord(s, i).value;
    var ends := ChainEnds(s, e);
    var m := CapsMatchAt(s, i).value;
    var p := s[i..m];
    assert |ends| >= 2;
    assert e < m <= ends[|ends| - 1] by {
      assert ends[0] < ends[1] <= ends[|ends| - 1];
      if m != ends[|ends| - 1] { assert ends[0] < ends[1] <= ends[|ends| - 2]; }
    }
    assert p[e - i] == ' ';
    forall j | 0 <= j < |p| ensures p[j] == ' ' || IsLetter(p[j]) {
      assert p[j] == s[i + j];
    }
  }

  /** Every phrase found is capitalized, holds a space and is made of
      letters and spaces. */
  lemma {:induction false} CapsPhrasesShape(s: string, i: nat)
    requires i <= |s|
    ensures forall k :: 0 <= k < |CapsPhrases(s, i)| ==> IsCapsPhrase(CapsPhrases(s, i)[k])
    decreases |s| - i
  {
    if i < |s| {
      match CapsMatchAt(s, i)
      case Some(m) =>
        CapsMatchShape(s, i);
        CapsPhrasesShape(s, m);
      case None =>
        CapsPhrasesShape(s, i + 1);
    }
  }

  /** The words that never become tags. */
  const CommonWords: set<string> := {"this", "that", "with", "from", "have", "were"}

  predicate NotCommon(e: Entry) { e.key !in CommonWords }

  /** The five most frequent words, common words excluded. */
  function TopWords(text: string): seq<string> {
    TopKeys(LongWords(text), NotCommon, MaxWordTags)
  }

  /** `tag.length > 15 ? tag.substring(0, 15) + '...' : tag`. */
  function Shorten(tag: string): (r: string)
    ensures |r| <= MaxTagLength + 3
    ensures |tag| <= MaxTagLength ==> r == tag
    ensures |tag| > MaxTagLength ==> r == tag[..MaxTagLength] + "..."
  {
    if |tag| > MaxTagLength then tag[..MaxTagLength] + "..." else tag
  }

  function ShortenAll(tags: seq<string>): (r: seq<string>)
    ensures |r| == |tags|
    ensures forall i :: 0 <= i < |tags| ==> r[i] == Shorten(tags[i])
  {
    if tags == [] then [] else [Shorten(tags[0])] + ShortenAll(tags[1..])
  }

  /** The tags before shortening: the first three capitalized phrases and
      the top words, each once, in that order. */
  function TagCandidates(text: string): seq<string> {
    Distinct(Take(CapsPhrases(text, 0), MaxCapsTags) + TopWords(text))
  }

  /** `extractPotentialTags(text)`. */
  function PotentialTags(text: string): seq<string> {
    ShortenAll(TagCandidates(text))
  }

  /** At most eight tags, each at most eighteen characters, none of them a
      common word; before shortening they are distinct and each is one of
      the first three capitalized phrases or one of the top words. */
  lemma PotentialTagsCorrect(text: string)
    ensures var r := PotentialTags(text);
            && |r| <= MaxCapsTags + MaxWordTags
            && (forall i :: 0 <= i < |r| ==> |r[i]| <= MaxTagLength + 3 && r[i] !in CommonWords)
            && NoDup(TagCandidates(text))
            && (forall t :: t in TagCandidates(text) <==> t in Take(CapsPhrases(text, 0), MaxCapsTags) || t in TopWords(text))
  {
    CapsPhrasesShape(text, 0);
    TopKeysMembers(LongWords(text), NotCommon, MaxWordTags);
    TagsOf(Take(CapsPhrases(text, 0), MaxCapsTags), TopWords(text));
  }

  /** `PotentialTagsCorrect` for any capitalized phrases and top words. */
  lemma TagsOf(caps: seq<string>, top: seq<string>)
    requires |caps| <= MaxCapsTags && |top| <= MaxWordTags
    requires forall k :: 0 <= k < |caps| ==> IsCapsPhrase(caps[k])
    requires forall k :: 0 <= k < |top| ==> top[k] !in CommonWords
    ensures var r := ShortenAll(Distinct(caps + top));
            && |r| <= MaxCapsTags + MaxWordTags
            && forall i :: 0 <= i < |r| ==> |r[i]| <= MaxTagLength + 3 && r[i] !in CommonWords
  {
    var c := Distinct(caps + top);
    var r := ShortenAll(c);
    CommonWordsShape();
    forall i | 0 <= i < |r| ensures r[i] !in CommonWords {
      var t := c[i];
      assert t in caps + top;
      if t in caps {
        var k :| 0 <= k < |caps| && caps[k] == t;
        assert IsCapsPhrase(t);
      }
      ShortenNotCommon(t);
    }
  }

  lemma CommonWordsShape()
    ensures forall w :: w in CommonWords ==> |w| == 4 && ' ' !in w
  {
  }

  lemma ShortenNotCommon(t: string)
    requires t !in CommonWords
    ensures Shorten(t) !in CommonWords
  {
    CommonWordsShape();
  }

  /** The top words are distinct words of four or more letters, none of
      them common, most frequent first; a word left out is outnumbered by
      all five that were kept. */
  lemma TopWordsCorrect(text: string, w: string)
    ensures var ws := LongWords(text);
            var r := TopWords(text);
            && |r| <= MaxWordTags && NoDup(r)
            && (forall i :: 0 <= i < |r| ==> r[i] in ws && r[i] !in CommonWords)
            && (forall i, j :: 0 <= i < j < |r| ==> Occ(ws, r[i]) >= Occ(ws, r[j]))
            && (w in ws && w !in CommonWords && w !in r ==>
                  |r| == MaxWordTags && forall i :: 0 <= i < |r| ==> Occ(ws, r[i]) >= Occ(ws, w))
  {
    UncommonWordsCorrect(LongWords(text), w);
  }

  /** `TopWordsCorrect` for any list of words. */
  lemma UncommonWordsCorrect(ws: seq<string>, w: string)
    ensures var r := TopKeys(ws, NotCommon, MaxWordTags);
            && |r| <= MaxWordTags && NoDup(r)
            && (forall i :: 0 <= i < |r| ==> r[i] in ws && r[i] !in CommonWords)
            && (forall i, j :: 0 <= i < j < |r| ==> Occ(ws, r[i]) >= Occ(ws, r[j]))
            && (w in ws && w !in CommonWords && w !in r ==>
                  |r| == MaxWordTags && forall i :: 0 <= i < |r| ==> Occ(ws, r[i]) >= Occ(ws, w))
  {
    TopKeysMembers(ws, NotCommon, MaxWordTags);
    TopKeysOrdered(ws, NotCommon, MaxWordTags);
    if w in ws && w !in CommonWords && w !in TopKeys(ws, NotCommon, MaxWordTags) {
      assert NotCommon(Entry(w, Occ(ws, w)));
      TopKeysComplete(ws, NotCommon, MaxWordTags, w);
    }
  }

  // ---------------------------------------------------------------------
  // addTag, the default title and the tag autofill
  // ---------------------------------------------------------------------

  /** `addTag(tag)`: appended only when absent. */
  function AddTag(tags: seq<string>, tag: string): (r: seq<string>)
    ensures tag in r
    ensures forall t :: t in r <==> t in tags || t == tag
    ensures tags <= r && |r| <= |tags| + 1
    ensures NoDup(tags) ==> NoDup(r)
  {
    if tag in tags then tags else tags + [tag]
  }

  /** Adding a tag twice is adding it once. */
  lemma AddTagIdempotent(tags: seq<string>, tag: string)
    ensures AddTag(AddTag(tags, tag), tag) == AddTag(tags, tag)
  {
  }

  /** `name.replace(/\.[^/.]+$/, "")`: a final dot followed by at least
      one character, none of them a dot or a slash, is removed. */
  function StripExtension(name: string): (r: string)
    ensures r <= name
    decreases |name|
  {
    if name == [] then []
    else
      var d := LastDot(name, |name|);
      if d.Some? && d.value + 1 < |name| && !HasSlash(name[d.value + 1..]) then name[..d.value] else name
  }

  predicate HasSlash(s: string) { '/' in s }

  /** The last dot before position `k`. */
  function LastDot(s: string, k: nat): (d: Option<nat>)
    requires k <= |s|
    ensures d.Some? ==> d.value < k && s[d.value] == '.' && forall j :: d.value < j < k ==> s[j] != '.'
    ensures d.None? ==> forall j :: 0 <= j < k ==> s[j] != '.'
  {
    if k == 0 then None else if s[k - 1] == '.' then Some(k - 1) else LastDot(s, k - 1)
  }

  /** An extension: non-empty, no dot, no slash. */
  predicate IsExtension(ext: string) {
    ext != [] && '.' !in ext && '/' !in ext
  }

  /** The name loses exactly its extension: it is changed precisely when it
      ends with a dot and an extension, and then it is what precedes them. */
  lemma StripExtensionCorrect(name: string, base: string, ext: string)
    ensures StripExtension(name) != name ==>
              exists e :: IsExtension(e) && name == StripExtension(name) + "." + e
    ensures name == base + "." + ext && IsExtension(ext) ==> StripExtension(name) == base
  {
    var r := StripExtension(name);
    if r != name {
      var d := LastDot(name, |name|).value;
      var e := name[d + 1..];
      assert name == name[..d] + "." + e;
      assert '.' !in e by {
        forall j | 0 <= j < |e| ensures e[j] != '.' { assert e[j] == name[d + 1 + j]; }
      }
      assert IsExtension(e);
    }
    if name == base + "." + ext && IsExtension(ext) {
      var d := |base|;
      assert name[d] == '.';
      forall j | d < j < |name| ensures name[j] != '.' {
        assert name[j] == ext[j - d - 1];
      }
      assert LastDot(name, |name|) == Some(d) by {
        LastDotAt(name, |name|, d);
      }
      assert name[d + 1..] == ext;
    }
  }

  lemma {:induction false} LastDotAt(s: string, k: nat, d: nat)
    requires d < k <= |s| && s[d] == '.' && forall j :: d < j < k ==> s[j] != '.'
    ensures LastDot(s, k) == Some(d)
    decreases k
  {
    if s[k - 1] != '.' {
      LastDotAt(s, k - 1, d);
    }
  }

  /** The title field when a file is chosen: kept if set, otherwise the
      file name without its extension. */
  function DefaultTitle(title: string, fileName: string): (r: string)
    ensures title != [] ==> r == title
    ensures title == [] ==> r == StripExtension(fileName)
  {
    if title == [] then StripExtension(fileName) else title
  }

  /** The tag list after extraction: when tags were suggested and the list
      is empty, the first three suggestions. */
  function Autofill(tags: seq<string>, suggested: seq<string>): (r: seq<string>)
    ensures tags != [] || suggested == [] ==> r == tags
    ensures tags == [] && suggested != [] ==> r == Take(suggested, AutofillCount) && |r| >= 1
    ensures |r| <= |tags| + AutofillCount
  {
    if suggested != [] && tags == [] then Take(suggested, AutofillCount) else tags
  }
}
