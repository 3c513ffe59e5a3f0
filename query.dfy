/** How a search query is read, identically in `highlightMatches` and in
    `searchDocuments`: the quoted phrases that `/"([^"]+)"/g` finds, and the
    text left once those matches are removed, lowercased and split on
    whitespace into terms. */
module Query {
  import opened Text
  import opened Collections

  predicate IsQuote(c: char) { c == '"' }

  /** The query as the global regex walks it: a character that starts no
      match, or a match `"inner"` with a non-empty, quote-free inner part. */
  datatype Seg = Plain(c: char) | Quoted(inner: string)

  /** Leftmost-first matching of `/"([^"]+)"/g`: at a quote, the match
      runs to the next quote provided at least one character lies between
      them; otherwise the character starts no match and the walk moves on
      by one. */
  function Segments(s: string): (segs: seq<Seg>)
    ensures forall k :: 0 <= k < |segs| && segs[k].Quoted? ==>
              |segs[k].inner| > 0 && forall j :: 0 <= j < |segs[k].inner| ==> !IsQuote(segs[k].inner[j])
    decreases |s|
  {
    if s == [] then []
    else if IsQuote(s[0]) && 1 < FirstSep(s, IsQuote, 1) < |s| then
      var j := FirstSep(s, IsQuote, 1);
      [Quoted(s[1..j])] + Segments(s[j + 1..])
    else [Plain(s[0])] + Segments(s[1..])
  }

  /** Writes the segments back out. */
  function Render(segs: seq<Seg>): string {
    if segs == [] then []
    else (match segs[0] case Plain(c) => [c] case Quoted(t) => ['"'] + t + ['"']) + Render(segs[1..])
  }

  /** The walk accounts for every character of the query. */
  lemma {:induction false} RenderSegments(s: string)
    ensures Render(Segments(s)) == s
    decreases |s|
  {
    if s != [] {
      var j := if IsQuote(s[0]) && 1 < FirstSep(s, IsQuote, 1) < |s| then FirstSep(s, IsQuote, 1) else 0;
      RenderSegments(s[j + 1..]);
      RenderFirst(s, j);
      assert s == s[..j + 1] + s[j + 1..];
    }
  }

  /** The first segment writes back the first `j + 1` characters. */
  lemma RenderFirst(s: string, j: nat)
    requires s != []
    requires j == if IsQuote(s[0]) && 1 < FirstSep(s, IsQuote, 1) < |s| then FirstSep(s, IsQuote, 1) else 0
    ensures Render(Segments(s)) == s[..j + 1] + Render(Segments(s[j + 1..]))
  {
    var rest := Segments(s[j + 1..]);
    if j > 0 {
      assert Segments(s) == [Quoted(s[1..j])] + rest;
      assert ([Quoted(s[1..j])] + rest)[1..] == rest;
      assert s[0] == '"' && s[j] == '"';
      Bracketed(s, j);
    } else {
      assert Segments(s) == [Plain(s[0])] + rest;
      assert ([Plain(s[0])] + rest)[1..] == rest;
      assert s[..1] == [s[0]];
    }
  }

  /** A query without quote characters is all plain text. */
  lemma {:induction false} SegmentsNoQuote(s: string)
    requires forall j :: 0 <= j < |s| ==> !IsQuote(s[j])
    ensures Remainder(Segments(s)) == s
    ensures QuotedPhrases(Segments(s)) == []
    decreases |s|
  {
    if s != [] {
      SegmentsNoQuote(s[1..]);
    }
  }

  /** `match.slice(1, -1).trim()` of every match, kept when non-empty. */
  function QuotedPhrases(segs: seq<Seg>): (ps: seq<string>)
    ensures forall k :: 0 <= k < |ps| ==> ps[k] != [] && !IsSpace(ps[k][0]) && !IsSpace(ps[k][|ps[k]| - 1])
  {
    if segs == [] then []
    else if segs[0].Quoted? && Trim(segs[0].inner) != [] then [Trim(segs[0].inner)] + QuotedPhrases(segs[1..])
    else QuotedPhrases(segs[1..])
  }

  /** `query.replace(/"([^"]+)"/g, '')`. */
  function Remainder(segs: seq<Seg>): string {
    if segs == [] then []
    else (if segs[0].Plain? then [segs[0].c] else []) + Remainder(segs[1..])
  }

  /** The quoted phrases of a query. */
  function Phrases(q: string): seq<string> {
    QuotedPhrases(Segments(q))
  }

  /** `remainingText.toLowerCase().split(/\s+/)`, the search terms. */
  function Terms(q: string): (ts: seq<string>)
    ensures |ts| >= 1
    ensures forall k :: 0 <= k < |ts| ==> IsLower(ts[k]) && forall j :: 0 <= j < |ts[k]| ==> !IsSpace(ts[k][j])
  {
    var t := ToLower(Trim(Remainder(Segments(q))));
    ToLowerIsLower(Trim(Remainder(Segments(q))));
    SplitRunsKeeps(t, IsSpace, c => !IsUpper(c));
    SplitRuns(t, IsSpace)
  }

  /** Highlighting keeps only terms of three or more characters. */
  predicate IsHighlightWord(w: string) { |w| > 2 }

  /** The words `highlightMatches` looks for. */
  function Words(q: string): (ws: seq<string>)
    ensures forall k :: 0 <= k < |ws| ==> |ws[k]| > 2 && IsLower(ws[k])
  {
    Filter(Terms(q), IsHighlightWord)
  }

  /** The remainder has been trimmed, so it neither starts nor ends with
      whitespace; splitting it yields no empty term unless the remainder
      itself is empty, in which case the one term is "". */
  lemma {:induction false} TermsNonEmpty(q: string)
    ensures Terms(q) == [""] || forall k :: 0 <= k < |Terms(q)| ==> Terms(q)[k] != []
  {
    var t := ToLower(Trim(Remainder(Segments(q))));
    if t != [] {
      SplitRunsNoEmpty(t);
    }
  }

  /** Splitting a string with non-space ends on whitespace runs gives only
      non-empty pieces. */
  lemma {:induction false} SplitRunsNoEmpty(t: string)
    requires t != [] && !IsSpace(t[0]) && !IsSpace(t[|t| - 1])
    ensures forall k :: 0 <= k < |SplitRuns(t, IsSpace)| ==> SplitRuns(t, IsSpace)[k] != []
    decreases |t|
  {
    var k := FirstSep(t, IsSpace, 0);
    if k < |t| {
      var e := RunEnd(t, IsSpace, k);
      assert e < |t|;
      SplitRunsNoEmpty(t[e..]);
    }
  }

  lemma SegmentsOfQuoted(p: string)
    requires p != [] && forall j :: 0 <= j < |p| ==> !IsQuote(p[j])
    ensures Segments(['"'] + p + ['"']) == [Quoted(p)]
  {
    var q := ['"'] + p + ['"'];
    var j := |p| + 1;
    assert |q| == j + 1 && q[0] == '"' && q[j] == '"';
    assert q[1..j] == p;
    assert forall i :: 1 <= i < j ==> q[i] == p[i - 1];
    FirstSepAt(q, IsQuote, 1, j);
    assert q[j + 1..] == [];
  }

  /** A query made only of one quoted phrase leaves nothing else, and its
      single search term is the empty string. */
  lemma QuotedOnlyTerms(p: string)
    requires p != [] && forall j :: 0 <= j < |p| ==> !IsQuote(p[j])
    ensures Terms(['"'] + p + ['"']) == [""]
    ensures Words(['"'] + p + ['"']) == []
  {
    var q := ['"'] + p + ['"'];
    SegmentsOfQuoted(p);
    assert Remainder(Segments(q)) == [];
    assert Trim([]) == [];
    assert ToLower([]) == [];
    assert SplitRuns([], IsSpace) == [[]];
  }
}
