/** The highlighting passes: `s.replace(regex, open + "$1" + close)` with a
    global, case-insensitive regular expression built from escaped query
    text. Each of the three pattern shapes the program builds is given an
    explicit matcher that follows the regex engine's leftmost,
    backtracking search; the replacement keeps the matched text in its
    original case and wraps it in markup. */
module Markup {
  import opened Text
  import opened Collections

  /** The span markup the program inserts; every opening tag starts with
      `SpanTag`. */
  const SpanTag: string := "<span "
  const PhraseOpen: string := SpanTag + "class=\"bg-yellow-300 dark:bg-yellow-800 font-medium\">"
  const TermOpen: string := SpanTag + "class=\"bg-yellow-200 dark:bg-yellow-900\">"
  const PartialOpen: string := SpanTag + "class=\"bg-yellow-100 dark:bg-yellow-950\">"
  const Close: string := "</span>"

  /** The pattern shapes, each built around `escapeRegExp(text)`, which
      makes `text` match itself literally:
      - Literal:     /(text)/gi
      - WholeWord:   /\b(text)\b/gi
      - PartialWord: /(\b\w*text\w*\b)/gi */
  datatype Pattern =
    | Literal(text: string)
    | WholeWord(text: string)
    | PartialWord(text: string)

  /** Case-insensitive equality under the `i` flag (ASCII letters). */
  predicate SameIgnoringCase(a: string, b: string) {
    ToLower(a) == ToLower(b)
  }

  /** `text` matches literally at `i`. */
  predicate LiteralAt(s: string, text: string, i: nat) {
    i + |text| <= |s| && SameIgnoringCase(s[i..i + |text|], text)
  }

  /** The end of the match of `pat` that starts at `i`, if the regex
      matches there. Every match is non-empty. */
  function MatchAt(s: string, pat: Pattern, i: nat): (m: Option<nat>)
    requires i <= |s| && |pat.text| > 0
    ensures m.Some? ==> i < m.value <= |s|
    ensures m.Some? && !pat.PartialWord? ==> m.value == i + |pat.text| && LiteralAt(s, pat.text, i)
    ensures m.Some? && pat.WholeWord? ==> Boundary(s, i) && Boundary(s, i + |pat.text|)
    ensures m.Some? && pat.PartialWord? ==> Boundary(s, i) && Boundary(s, m.value)
  {
    match pat
    case Literal(t) =>
      if LiteralAt(s, t, i) then Some(i + |t|) else None
    case WholeWord(t) =>
      if Boundary(s, i) && LiteralAt(s, t, i) && Boundary(s, i + |t|) then Some(i + |t|) else None
    case PartialWord(t) =>
      if Boundary(s, i) then PartialFrom(s, t, i, RunEnd(s, IsWordChar, i)) else None
  }

  /** The backtracking of `\w*text\w*\b` from `i`: the leading `\w*`
      takes the longest run it can (`j` down to `i`) after which `text`
      follows; the trailing `\w*` then runs to the end of the word, and
      `\b` must hold there (a shorter trailing run can never end on a
      boundary unless it is empty, which is the same position). */
  function PartialFrom(s: string, t: string, i: nat, j: nat): (m: Option<nat>)
    requires i <= j <= |s| && |t| > 0
    ensures m.Some? ==> i < m.value <= |s| && Boundary(s, m.value)
    decreases j
  {
    if LiteralAt(s, t, j) && Boundary(s, RunEnd(s, IsWordChar, j + |t|)) then
      Some(RunEnd(s, IsWordChar, j + |t|))
    else if j == i then None
    else PartialFrom(s, t, i, j - 1)
  }

  /** `pat` matches somewhere in `s` (`regex.test(s)`). */
  predicate Occurs(s: string, pat: Pattern)
    requires |pat.text| > 0
  {
    exists i :: 0 <= i <= |s| && MatchAt(s, pat, i).Some?
  }

  /** One piece of the text as the global replace walks it: a character
      at `at` that starts no match, or a match from `at` to `end`. */
  datatype Piece = Kept(at: nat) | Hit(at: nat, end: nat)

  function PieceEnd(p: Piece): nat {
    if p.Kept? then p.at + 1 else p.end
  }

  /** The pieces cover `[i, j)` of the text, one after the other. */
  predicate Tiles(ps: seq<Piece>, i: nat, j: nat) {
    if ps == [] then i == j
    else ps[0].at == i && i < PieceEnd(ps[0]) && Tiles(ps[1..], PieceEnd(ps[0]), j)
  }

  /** The leftmost-first walk of a global replace from position `i`: at
      each position either a match starts (it is taken whole and the walk
      resumes after it) or the character is kept. */
  function Scan(s: string, pat: Pattern, i: nat): (ps: seq<Piece>)
    requires i <= |s| && |pat.text| > 0
    ensures Tiles(ps, i, |s|)
    ensures forall k :: 0 <= k < |ps| && ps[k].Kept? ==> ps[k].at < |s| && MatchAt(s, pat, ps[k].at).None?
    ensures forall k :: 0 <= k < |ps| && ps[k].Hit? ==> ps[k].at <= |s| && MatchAt(s, pat, ps[k].at) == Some(ps[k].end)
    decreases |s| - i
  {
    if i == |s| then []
    else match MatchAt(s, pat, i)
      case Some(k) => [Hit(i, k)] + Scan(s, pat, k)
      case None => [Kept(i)] + Scan(s, pat, i + 1)
  }

  /** The replaced text: kept characters as they were, each match wrapped
      in `open` and `Close` with its original spelling inside. */
  function Render(s: string, ps: seq<Piece>, open: string): string {
    if ps == [] then []
    else
      var p := ps[0];
      var here := if p.Kept? then (if p.at < |s| then [s[p.at]] else [])
                  else if p.at <= p.end <= |s| then open + s[p.at..p.end] + Close else [];
      here + Render(s, ps[1..], open)
  }

  /** The text the pieces cover, without the markup. */
  function Erase(s: string, ps: seq<Piece>): string {
    if ps == [] then []
    else
      var p := ps[0];
      (if p.at <= PieceEnd(p) <= |s| then s[p.at..PieceEnd(p)] else []) + Erase(s, ps[1..])
  }

  /** `s.replace(pat, open + "$1" + close)`. */
  function MarkAll(s: string, pat: Pattern, open: string): string
    requires |pat.text| > 0
  {
    Render(s, Scan(s, pat, 0), open)
  }

  /** Pieces that tile `[i, |s|)` cover exactly that part of the text:
      the replace neither drops nor reorders characters, and the wrapped
      matches keep their spelling. */
  lemma {:induction false} EraseTiles(s: string, ps: seq<Piece>, i: nat)
    requires i <= |s| && Tiles(ps, i, |s|)
    ensures Erase(s, ps) == s[i..]
    decreases |ps|
  {
    if ps != [] {
      var e := PieceEnd(ps[0]);
      TilesBound(ps[1..], e, |s|);
      EraseTiles(s, ps[1..], e);
      assert s[i..] == s[i..e] + s[e..];
    }
  }

  lemma {:induction false} TilesBound(ps: seq<Piece>, i: nat, j: nat)
    requires Tiles(ps, i, j)
    ensures i <= j
    decreases |ps|
  {
    if ps != [] { TilesBound(ps[1..], PieceEnd(ps[0]), j); }
  }

  /** Removing the markup from the replaced text gives back the text. */
  lemma MarkAllKeepsText(s: string, pat: Pattern)
    requires |pat.text| > 0
    ensures Erase(s, Scan(s, pat, 0)) == s
  {
    EraseTiles(s, Scan(s, pat, 0), 0);
  }

  /** With no match anywhere the replace changes nothing. */
  lemma {:induction false} ScanNoMatch(s: string, pat: Pattern, open: string, i: nat)
    requires i <= |s| && |pat.text| > 0
    requires forall j :: i <= j <= |s| ==> MatchAt(s, pat, j).None?
    ensures Render(s, Scan(s, pat, i), open) == s[i..]
    decreases |s| - i
  {
    if i < |s| {
      ScanNoMatch(s, pat, open, i + 1);
      assert s[i..] == [s[i]] + s[i + 1..];
    }
  }

  /** The count of wrapped matches: one `open` per `Hit`. */
  function Hits(ps: seq<Piece>): nat {
    if ps == [] then 0 else (if ps[0].Hit? then 1 else 0) + Hits(ps[1..])
  }

  /** Every match lengthens the text by exactly one pair of tags. */
  lemma {:induction false} RenderLength(s: string, ps: seq<Piece>, i: nat, open: string)
    requires i <= |s| && Tiles(ps, i, |s|)
    requires forall k :: 0 <= k < |ps| && ps[k].Kept? ==> ps[k].at < |s|
    ensures |Render(s, ps, open)| == |s| - i + Hits(ps) * (|open| + |Close|)
    decreases |ps|
  {
    if ps != [] {
      var e := PieceEnd(ps[0]);
      TilesBound(ps[1..], e, |s|);
      assert forall k :: 0 <= k < |ps[1..]| ==> ps[1..][k] == ps[k + 1];
      RenderLength(s, ps[1..], e, open);
      var w := |open| + |Close|;
      var h := Hits(ps[1..]);
      assert (1 + h) * w == w + h * w;
    }
  }

  /** Phrase pass: every phrase in turn, as a plain case-insensitive
      pattern, on the output of the previous phrase. */
  function MarkPhrases(s: string, phrases: seq<string>): string
    requires forall k :: 0 <= k < |phrases| ==> |phrases[k]| > 0
    decreases |phrases|
  {
    if phrases == [] then s
    else MarkPhrases(MarkAll(s, Literal(phrases[0]), PhraseOpen), phrases[1..])
  }

  /** Word pass of `highlightMatches`: every query word in turn, as a
      whole-word pattern. */
  function MarkWords(s: string, words: seq<string>): string
    requires forall k :: 0 <= k < |words| ==> |words[k]| > 0
    decreases |words|
  {
    if words == [] then s
    else MarkWords(MarkAll(s, WholeWord(words[0]), TermOpen), words[1..])
  }

  /** Term pass of `searchDocuments`: every term of three or more characters in turn, as a
      whole-word pattern; shorter terms are skipped. The pass runs over the
      output of the phrase pass, so it also sees the markup inserted there. */
  function MarkTerms(s: string, terms: seq<string>): string
    decreases |terms|
  {
    if terms == [] then s
    else if |terms[0]| < 3 then MarkTerms(s, terms[1..])
    else MarkTerms(MarkAll(s, WholeWord(terms[0]), TermOpen), terms[1..])
  }

  /** A term the term pass wraps: three characters or more. */
  predicate LongTerm(t: string) {
    |t| >= 3
  }

  /** Terms shorter than three characters are never wrapped: the term pass
      is the word pass run over the long terms alone. */
  lemma {:induction false} MarkTermsLong(s: string, terms: seq<string>)
    ensures MarkTerms(s, terms) == MarkWords(s, Filter(terms, LongTerm))
    decreases |terms|
  {
    if terms != [] {
      var rest := Filter(terms[1..], LongTerm);
      if |terms[0]| < 3 {
        assert Filter(terms, LongTerm) == rest;
        MarkTermsLong(s, terms[1..]);
      } else {
        var next := MarkAll(s, WholeWord(terms[0]), TermOpen);
        assert Filter(terms, LongTerm) == [terms[0]] + rest;
        assert ([terms[0]] + rest)[1..] == rest;
        MarkTermsLong(next, terms[1..]);
      }
    }
  }

  /** The pattern of the partial-match pass for a query word: the whole
      word when it has at most 4 characters, otherwise any word containing
      its first 4 characters. */
  function PartialPattern(w: string): (p: Pattern)
    requires |w| > 0
    ensures |p.text| > 0
  {
    if |w| <= 4 then WholeWord(w) else PartialWord(w[..4])
  }

  function PartialOpenFor(w: string): string {
    if |w| <= 4 then TermOpen else PartialOpen
  }

  /** Partial-match pass over the query words. */
  function MarkPartial(s: string, words: seq<string>): string
    requires forall k :: 0 <= k < |words| ==> |words[k]| > 0
    decreases |words|
  {
    if words == [] then s
    else MarkPartial(MarkAll(s, PartialPattern(words[0]), PartialOpenFor(words[0])), words[1..])
  }

  /** The term pass runs on the output of the phrase pass, markup
      included: once a phrase is wrapped, the word "span" of the inserted
      tag is itself a whole-word match. */
  lemma TermPassSeesMarkup(s: string, p: string)
    requires |p| > 0 && LiteralAt(s, p, 0)
    ensures MatchAt(MarkAll(s, Literal(p), PhraseOpen), WholeWord("span"), 1) == Some(5)
  {
    assert MatchAt(s, Literal(p), 0) == Some(|p|);
    var rest := Scan(s, Literal(p), |p|);
    assert Scan(s, Literal(p), 0) == [Hit(0, |p|)] + rest;
    RenderHit(s, [Hit(0, |p|)] + rest, PhraseOpen);
    SpanMatch(MarkAll(s, Literal(p), PhraseOpen));
  }

  /** A replace whose first piece is a match starts with the markup. */
  lemma RenderHit(s: string, ps: seq<Piece>, open: string)
    requires ps != [] && ps[0].Hit? && ps[0].at <= ps[0].end <= |s|
    ensures Render(s, ps, open)[..|open|] == open
  {
    var p := ps[0];
    assert Render(s, ps, open) == open + (s[p.at..p.end] + Close + Render(s, ps[1..], open));
  }

  /** Text that starts with an opening tag has "span" as a whole word. */
  lemma SpanMatch(r: string)
    requires |r| >= |SpanTag| && r[..|SpanTag|] == SpanTag
    ensures MatchAt(r, WholeWord("span"), 1) == Some(5)
  {
    assert SpanTag[0] == '<' && SpanTag[5] == ' ' && SpanTag[1..5] == "span";
    assert r[0] == r[..|SpanTag|][0] && r[5] == r[..|SpanTag|][5];
    assert r[1..5] == r[..|SpanTag|][1..5];
    LowerStringUnchanged("span");
    assert LiteralAt(r, "span", 1);
    assert Boundary(r, 1) && Boundary(r, 5);
  }
}
