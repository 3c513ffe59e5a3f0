/** `highlightMatches` and the highlight excerpts of `searchDocuments`: up
    to three marked-up excerpts of a text, taken from the first tier that
    yields any — paragraphs that mention the query, then sentences that
    do, then sentences with a partial word match — and otherwise the
    first 200 characters followed by "...". */
module Highlight {
  import opened Text
  import opened Collections
  import opened Markup
  import Query

  predicate IsNewline(c: char) { c == '\n' }

  predicate IsSentenceEnd(c: char) { c == '.' || c == '!' || c == '?' }

  /** `text.split(/\n+/)`. */
  function Paragraphs(text: string): seq<string> {
    SplitRuns(text, IsNewline)
  }

  /** `text.split(/[.!?]+/)`. */
  function Sentences(text: string): seq<string> {
    SplitRuns(text, IsSentenceEnd)
  }

  /** Where an excerpt comes from and how it qualifies and is marked up. */
  datatype Tier =
    | ParagraphTier  // whole paragraphs, words and phrases as substrings
    | SentenceTier   // trimmed sentences of 10+ characters, same test
    | PartialTier    // trimmed sentences of 10+ characters, partial word test
    | ExcerptTier    // the highlights `searchDocuments` attaches to a result

  /** Shortest sentence considered. */
  const MinSentence: nat := 10

  /** Most excerpts returned. */
  const MaxExcerpts: nat := 3

  /** Length of the fallback excerpt. */
  const FallbackLength: nat := 200

  function Fallback(text: string): (r: string)
    ensures |r| <= FallbackLength + 3
  {
    Take(text, FallbackLength) + "..."
  }

  /** What the queries may contain: phrases are never empty, and the words
      of `highlightMatches` are not either; search terms may be. */
  predicate WellFormed(tier: Tier, words: seq<string>, phrases: seq<string>) {
    && (forall k :: 0 <= k < |phrases| ==> |phrases[k]| > 0)
    && (tier != ExcerptTier ==> forall k :: 0 <= k < |words| ==> |words[k]| > 0)
  }

  /** Some needle occurs in `hay`. */
  predicate MentionsAny(hay: string, needles: seq<string>) {
    exists k :: 0 <= k < |needles| && Contains(hay, needles[k])
  }

  /** The excerpt candidate made from one piece of the split text. */
  function Unit(tier: Tier, piece: string): string {
    if tier == ParagraphTier then piece else Trim(piece)
  }

  /** The pattern the partial tier tests a word with: the whole word when it
      has at most 4 characters, otherwise its first 4 characters anywhere. */
  function PartialTest(w: string): (p: Pattern)
    requires |w| > 0
    ensures |p.text| > 0
  {
    if |w| <= 4 then WholeWord(w) else Literal(w[..4])
  }

  predicate PartialMatch(hay: string, words: seq<string>)
    requires forall k :: 0 <= k < |words| ==> |words[k]| > 0
  {
    exists k :: 0 <= k < |words| && Occurs(hay, PartialTest(words[k]))
  }

  /** Whether the candidate `u` becomes an excerpt. */
  predicate Qualifies(tier: Tier, u: string, words: seq<string>, phrases: seq<string>)
    requires WellFormed(tier, words, phrases)
  {
    var lower := ToLower(u);
    match tier
    case ParagraphTier => MentionsAny(lower, words) || MentionsAny(lower, LowerAll(phrases))
    case SentenceTier | ExcerptTier =>
      |u| >= MinSentence && (MentionsAny(lower, words) || MentionsAny(lower, LowerAll(phrases)))
    case PartialTier => |u| >= MinSentence && PartialMatch(lower, words)
  }

  /** The marked-up excerpt: phrases first, then words or terms; the
      partial tier marks its partial patterns only. */
  function Mark(tier: Tier, u: string, words: seq<string>, phrases: seq<string>): string
    requires WellFormed(tier, words, phrases)
  {
    match tier
    case ParagraphTier | SentenceTier => MarkWords(MarkPhrases(u, phrases), words)
    case ExcerptTier => MarkTerms(MarkPhrases(u, phrases), words)
    case PartialTier => MarkPartial(u, words)
  }

  /** The first `n` elements of `units` that pass `keep`, each through
      `mark`, in order. */
  function FirstMarked(units: seq<string>, keep: string -> bool, mark: string -> string, n: nat): (r: seq<string>)
    ensures |r| <= n && |r| <= |units|
    decreases |units|
  {
    if units == [] || n == 0 then []
    else if keep(units[0]) then [mark(units[0])] + FirstMarked(units[1..], keep, mark, n - 1)
    else FirstMarked(units[1..], keep, mark, n)
  }

  /** Every element of the result is the mark of a unit that passes. */
  lemma {:induction false} FirstMarkedSound(units: seq<string>, keep: string -> bool, mark: string -> string, n: nat)
    ensures forall x :: x in FirstMarked(units, keep, mark, n) ==>
              exists i :: 0 <= i < |units| && keep(units[i]) && x == mark(units[i])
    decreases |units|
  {
    if units != [] && n > 0 {
      var m := if keep(units[0]) then 1 else 0;
      FirstMarkedSound(units[1..], keep, mark, n - m);
      forall x | x in FirstMarked(units, keep, mark, n)
        ensures exists i :: 0 <= i < |units| && keep(units[i]) && x == mark(units[i])
      {
        if !(keep(units[0]) && x == mark(units[0])) {
          var i :| 0 <= i < |units[1..]| && keep(units[1..][i]) && x == mark(units[1..][i]);
          assert units[1..][i] == units[i + 1];
        }
      }
    }
  }

  /** Nothing results exactly when no unit passes (and at least one is
      asked for). */
  lemma {:induction false} FirstMarkedEmpty(units: seq<string>, keep: string -> bool, mark: string -> string, n: nat)
    requires n > 0
    ensures FirstMarked(units, keep, mark, n) == [] <==> forall i :: 0 <= i < |units| ==> !keep(units[i])
    decreases |units|
  {
    if units != [] {
      FirstMarkedEmpty(units[1..], keep, mark, n);
      assert forall i :: 1 <= i < |units| ==> units[i] == units[1..][i - 1];
    }
  }

  /** The first element of the result is the mark of the first unit that
      passes. */
  lemma {:induction false} FirstMarkedHead(units: seq<string>, keep: string -> bool, mark: string -> string, n: nat, i: nat)
    requires n > 0 && i < |units| && keep(units[i])
    requires forall j :: 0 <= j < i ==> !keep(units[j])
    ensures FirstMarked(units, keep, mark, n) != []
    ensures FirstMarked(units, keep, mark, n)[0] == mark(units[i])
    decreases i
  {
    if i > 0 {
      assert forall j :: 0 <= j < i - 1 ==> units[1..][j] == units[j + 1];
      FirstMarkedHead(units[1..], keep, mark, n, i - 1);
    }
  }

  /** The collecting loop: walk the units, keep the marked-up ones that
      pass, stop once `MaxExcerpts` are kept. */
  method CollectMatches(units: seq<string>, keep: string -> bool, mark: string -> string)
    returns (matches: seq<string>)
    ensures matches == FirstMarked(units, keep, mark, MaxExcerpts)
  {
    matches := [];
    var i := 0;
    while i < |units|
      invariant 0 <= i <= |units| && |matches| < MaxExcerpts
      invariant matches + FirstMarked(units[i..], keep, mark, MaxExcerpts - |matches|)
             == FirstMarked(units, keep, mark, MaxExcerpts)
    {
      FirstMarkedStep(units, keep, mark, matches, i);
      var u := units[i];
      if keep(u) {
        matches := matches + [mark(u)];
        if |matches| >= MaxExcerpts {
          return;
        }
      }
      i := i + 1;
    }
  }

  /** One step of the collecting loop: the part still to collect after
      position `i`, with the unit at `i` taken when it passes. */
  lemma FirstMarkedStep(units: seq<string>, keep: string -> bool, mark: string -> string,
                        matches: seq<string>, i: nat)
    requires i < |units| && |matches| < MaxExcerpts
    ensures var n := MaxExcerpts - |matches|;
            var m := if keep(units[i]) then matches + [mark(units[i])] else matches;
            matches + FirstMarked(units[i..], keep, mark, n)
            == m + FirstMarked(units[i + 1..], keep, mark, MaxExcerpts - |m|)
  {
    assert units[i..][1..] == units[i + 1..];
    if keep(units[i]) {
      var rest := FirstMarked(units[i + 1..], keep, mark, MaxExcerpts - |matches| - 1);
      assert matches + ([mark(units[i])] + rest) == (matches + [mark(units[i])]) + rest;
    }
  }

  /** The candidates of a tier. */
  function Units(tier: Tier, pieces: seq<string>): (us: seq<string>)
    ensures |us| == |pieces|
    ensures forall i :: 0 <= i < |pieces| ==> us[i] == Unit(tier, pieces[i])
  {
    seq(|pieces|, i requires 0 <= i < |pieces| => Unit(tier, pieces[i]))
  }

  function Keep(tier: Tier, words: seq<string>, phrases: seq<string>): string -> bool
    requires WellFormed(tier, words, phrases)
  {
    u => Qualifies(tier, u, words, phrases)
  }

  function Marker(tier: Tier, words: seq<string>, phrases: seq<string>): string -> string
    requires WellFormed(tier, words, phrases)
  {
    u => Mark(tier, u, words, phrases)
  }

  /** The first `n` qualifying candidates among `pieces`, marked up, in
      text order. */
  function FirstMatches(tier: Tier, pieces: seq<string>, words: seq<string>, phrases: seq<string>, n: nat): (r: seq<string>)
    requires WellFormed(tier, words, phrases)
    ensures |r| <= n
  {
    FirstMarked(Units(tier, pieces), Keep(tier, words, phrases), Marker(tier, words, phrases), n)
  }

  /** Every excerpt of a tier is the markup of one of its candidates that
      qualifies. */
  lemma FirstMatchesSound(tier: Tier, pieces: seq<string>, words: seq<string>, phrases: seq<string>, n: nat)
    requires WellFormed(tier, words, phrases)
    ensures forall x :: x in FirstMatches(tier, pieces, words, phrases, n) ==>
              exists i :: 0 <= i < |pieces| && Qualifies(tier, Unit(tier, pieces[i]), words, phrases)
                       && x == Mark(tier, Unit(tier, pieces[i]), words, phrases)
  {
    FirstMarkedSound(Units(tier, pieces), Keep(tier, words, phrases), Marker(tier, words, phrases), n);
  }

  /** A tier yields nothing exactly when none of its candidates qualifies. */
  lemma FirstMatchesEmpty(tier: Tier, pieces: seq<string>, words: seq<string>, phrases: seq<string>, n: nat)
    requires WellFormed(tier, words, phrases) && n > 0
    ensures FirstMatches(tier, pieces, words, phrases, n) == [] <==>
            forall i :: 0 <= i < |pieces| ==> !Qualifies(tier, Unit(tier, pieces[i]), words, phrases)
  {
    FirstMarkedEmpty(Units(tier, pieces), Keep(tier, words, phrases), Marker(tier, words, phrases), n);
  }

  /** The first excerpt of a tier comes from its first qualifying
      candidate. */
  lemma FirstMatchesHead(tier: Tier, pieces: seq<string>, words: seq<string>, phrases: seq<string>, n: nat, i: nat)
    requires WellFormed(tier, words, phrases) && n > 0
    requires i < |pieces| && Qualifies(tier, Unit(tier, pieces[i]), words, phrases)
    requires forall j :: 0 <= j < i ==> !Qualifies(tier, Unit(tier, pieces[j]), words, phrases)
    ensures FirstMatches(tier, pieces, words, phrases, n) != []
    ensures FirstMatches(tier, pieces, words, phrases, n)[0] == Mark(tier, Unit(tier, pieces[i]), words, phrases)
  {
    FirstMarkedHead(Units(tier, pieces), Keep(tier, words, phrases), Marker(tier, words, phrases), n, i);
  }

  /** `highlightMatches(text, query)`, tier by tier. */
  function HighlightSpec(text: string, query: string): (r: seq<string>)
    ensures 1 <= |r| <= MaxExcerpts
  {
    var words := Query.Words(query);
    var phrases := Query.Phrases(query);
    if words == [] && phrases == [] then [Fallback(text)]
    else
      var byParagraph := FirstMatches(ParagraphTier, Paragraphs(text), words, phrases, MaxExcerpts);
      var bySentence := FirstMatches(SentenceTier, Sentences(text), words, phrases, MaxExcerpts);
      var byPartial := FirstMatches(PartialTier, Sentences(text), words, phrases, MaxExcerpts);
      if byParagraph != [] then byParagraph
      else if bySentence != [] then bySentence
      else if words != [] && byPartial != [] then byPartial
      else [Fallback(text)]
  }

  method HighlightMatches(text: string, query: string) returns (r: seq<string>)
    ensures r == HighlightSpec(text, query)
  {
    var words := Query.Words(query);
    var phrases := Query.Phrases(query);
    if words == [] && phrases == [] {
      return [Fallback(text)];
    }
    r := CollectMatches(Units(ParagraphTier, Paragraphs(text)), Keep(ParagraphTier, words, phrases),
                        Marker(ParagraphTier, words, phrases));
    if r == [] {
      r := CollectMatches(Units(SentenceTier, Sentences(text)), Keep(SentenceTier, words, phrases),
                          Marker(SentenceTier, words, phrases));
    }
    if r == [] && words != [] {
      r := CollectMatches(Units(PartialTier, Sentences(text)), Keep(PartialTier, words, phrases),
                          Marker(PartialTier, words, phrases));
    }
    if r == [] {
      r := [Fallback(text)];
    }
  }

  /** A query with neither a word of three or more characters nor a quoted
      phrase yields the fallback excerpt whatever the text. */
  lemma EmptyQueryFallback(text: string, query: string)
    requires Query.Words(query) == [] && Query.Phrases(query) == []
    ensures HighlightSpec(text, query) == [Take(text, FallbackLength) + "..."]
  {
  }

  /** Tiers are tried in order: when some paragraph qualifies, the first
      excerpt is the first such paragraph, marked up. */
  lemma ParagraphsFirst(text: string, query: string, i: nat)
    requires var words := Query.Words(query); var phrases := Query.Phrases(query);
      && WellFormed(ParagraphTier, words, phrases)
      && i < |Paragraphs(text)| && Qualifies(ParagraphTier, Paragraphs(text)[i], words, phrases)
      && forall j :: 0 <= j < i ==> !Qualifies(ParagraphTier, Paragraphs(text)[j], words, phrases)
    ensures HighlightSpec(text, query)[0]
         == Mark(ParagraphTier, Paragraphs(text)[i], Query.Words(query), Query.Phrases(query))
  {
    var words := Query.Words(query);
    var phrases := Query.Phrases(query);
    FirstMatchesHead(ParagraphTier, Paragraphs(text), words, phrases, MaxExcerpts, i);
  }

  /** Some candidate of a tier qualifies. */
  predicate AnyQualifies(tier: Tier, pieces: seq<string>, words: seq<string>, phrases: seq<string>)
    requires WellFormed(tier, words, phrases)
  {
    exists i :: 0 <= i < |pieces| && Qualifies(tier, Unit(tier, pieces[i]), words, phrases)
  }

  /** Every excerpt of `r` is the markup of a qualifying candidate made
      from one of `pieces`. */
  ghost predicate FromTier(tier: Tier, pieces: seq<string>, r: seq<string>, words: seq<string>, phrases: seq<string>)
    requires WellFormed(tier, words, phrases)
  {
    forall x :: x in r ==>
      exists i :: 0 <= i < |pieces| && Qualifies(tier, Unit(tier, pieces[i]), words, phrases)
               && x == Mark(tier, Unit(tier, pieces[i]), words, phrases)
  }

  /** Every excerpt is either the fallback or the markup of a qualifying
      paragraph or sentence of the text, all from one tier. */
  lemma HighlightSound(text: string, query: string)
    ensures var r := HighlightSpec(text, query);
            var words := Query.Words(query);
            var phrases := Query.Phrases(query);
            || r == [Fallback(text)]
            || FromTier(ParagraphTier, Paragraphs(text), r, words, phrases)
            || FromTier(SentenceTier, Sentences(text), r, words, phrases)
            || FromTier(PartialTier, Sentences(text), r, words, phrases)
  {
    var words := Query.Words(query);
    var phrases := Query.Phrases(query);
    var r := HighlightSpec(text, query);
    if !(words == [] && phrases == []) && r != [Fallback(text)] {
      var tier, pieces;
      if FirstMatches(ParagraphTier, Paragraphs(text), words, phrases, MaxExcerpts) != [] {
        tier, pieces := ParagraphTier, Paragraphs(text);
      } else if FirstMatches(SentenceTier, Sentences(text), words, phrases, MaxExcerpts) != [] {
        tier, pieces := SentenceTier, Sentences(text);
      } else {
        tier, pieces := PartialTier, Sentences(text);
      }
      assert r == FirstMatches(tier, pieces, words, phrases, MaxExcerpts);
      FirstMatchesSound(tier, pieces, words, phrases, MaxExcerpts);
    }
  }

  /** A tier yields excerpts exactly when one of its candidates qualifies. */
  lemma TierMatches(tier: Tier, pieces: seq<string>, words: seq<string>, phrases: seq<string>)
    requires WellFormed(tier, words, phrases)
    ensures FirstMatches(tier, pieces, words, phrases, MaxExcerpts) != [] <==> AnyQualifies(tier, pieces, words, phrases)
  {
    FirstMatchesEmpty(tier, pieces, words, phrases, MaxExcerpts);
  }

  /** An empty query qualifies no candidate of any tier. */
  lemma NothingQualifies(tier: Tier, pieces: seq<string>)
    requires WellFormed(tier, [], [])
    ensures !AnyQualifies(tier, pieces, [], [])
  {
    assert LowerAll([]) == [];
  }

  /** The tiers are tried in a strict order: paragraphs when any paragraph
      qualifies; otherwise sentences when any sentence does; otherwise
      partial matches when the query has words and any sentence matches
      partially; and the fallback only when none of these holds. */
  lemma HighlightTierOrder(text: string, query: string)
    ensures var r := HighlightSpec(text, query);
            var words := Query.Words(query);
            var phrases := Query.Phrases(query);
            var ps := Paragraphs(text);
            var ss := Sentences(text);
            && (AnyQualifies(ParagraphTier, ps, words, phrases) ==>
                  r == FirstMatches(ParagraphTier, ps, words, phrases, MaxExcerpts))
            && (!AnyQualifies(ParagraphTier, ps, words, phrases) && AnyQualifies(SentenceTier, ss, words, phrases) ==>
                  r == FirstMatches(SentenceTier, ss, words, phrases, MaxExcerpts))
            && (!AnyQualifies(ParagraphTier, ps, words, phrases) && !AnyQualifies(SentenceTier, ss, words, phrases)
                && words != [] && AnyQualifies(PartialTier, ss, words, phrases) ==>
                  r == FirstMatches(PartialTier, ss, words, phrases, MaxExcerpts))
            && (!AnyQualifies(ParagraphTier, ps, words, phrases) && !AnyQualifies(SentenceTier, ss, words, phrases)
                && (words == [] || !AnyQualifies(PartialTier, ss, words, phrases)) ==>
                  r == [Fallback(text)])
  {
    var words := Query.Words(query);
    var phrases := Query.Phrases(query);
    var ps := Paragraphs(text);
    var ss := Sentences(text);
    var r := HighlightSpec(text, query);
    var byParagraph := FirstMatches(ParagraphTier, ps, words, phrases, MaxExcerpts);
    var bySentence := FirstMatches(SentenceTier, ss, words, phrases, MaxExcerpts);
    var byPartial := FirstMatches(PartialTier, ss, words, phrases, MaxExcerpts);
    var p := AnyQualifies(ParagraphTier, ps, words, phrases);
    var q := AnyQualifies(SentenceTier, ss, words, phrases);
    var t := AnyQualifies(PartialTier, ss, words, phrases);
    if words == [] && phrases == [] {
      NothingQualifies(ParagraphTier, ps);
      NothingQualifies(SentenceTier, ss);
      assert r == [Fallback(text)];
    } else {
      TierMatches(ParagraphTier, ps, words, phrases);
      TierMatches(SentenceTier, ss, words, phrases);
      TierMatches(PartialTier, ss, words, phrases);
      assert (byParagraph != []) == p && (bySentence != []) == q && (byPartial != []) == t;
      if p {
        assert r == byParagraph;
      } else if q {
        assert r == bySentence;
      } else if words != [] && t {
        assert r == byPartial;
      } else {
        assert r == [Fallback(text)];
      }
    }
  }

  /** The highlights `searchDocuments` attaches to a document: the first
      three trimmed sentences of 10+ characters that mention a term or a
      phrase, marked up. */
  function Excerpts(content: string, terms: seq<string>, phrases: seq<string>): (r: seq<string>)
    requires WellFormed(ExcerptTier, terms, phrases)
    ensures |r| <= MaxExcerpts
  {
    FirstMatches(ExcerptTier, Sentences(content), terms, phrases, MaxExcerpts)
  }
}
