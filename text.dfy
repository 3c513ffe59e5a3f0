/** Character classes and the string helpers the search engine is built from:
    ASCII lowercasing, JavaScript whitespace and trim, substring search,
    splitting on runs of a separator class, joining, and the regex word
    boundary. Strings are sequences of characters. */
module Text {

  /** JavaScript's `\s` class and the characters `trim()` removes: the
      WhiteSpace and LineTerminator code points of ECMAScript. */
  predicate IsSpace(c: char) {
    || c == ' ' || c == '\t' || c == '\n' || c == '\r' || c == '\U{B}' || c == '\U{C}'
    || c == '\U{A0}' || c == '\U{1680}' || ('\U{2000}' <= c <= '\U{200A}')
    || c == '\U{2028}' || c == '\U{2029}' || c == '\U{202F}' || c == '\U{205F}'
    || c == '\U{3000}' || c == '\U{FEFF}'
  }

  predicate IsUpper(c: char) { 'A' <= c <= 'Z' }

  predicate IsLowerLetter(c: char) { 'a' <= c <= 'z' }

  /** The regex word class `\w` = [A-Za-z0-9_]. */
  predicate IsWordChar(c: char) {
    IsUpper(c) || IsLowerLetter(c) || ('0' <= c <= '9') || c == '_'
  }

  /** `toLowerCase` restricted to ASCII letters. */
  function LowerChar(c: char): (d: char)
    ensures !IsUpper(d)
    ensures IsWordChar(d) <==> IsWordChar(c)
    ensures IsSpace(d) <==> IsSpace(c)
    ensures !IsUpper(c) ==> d == c
  {
    if IsUpper(c) then (c as int + 32) as char else c
  }

  function ToLower(s: string): (r: string)
    ensures |r| == |s|
    ensures forall i :: 0 <= i < |s| ==> r[i] == LowerChar(s[i])
  {
    if s == [] then [] else [LowerChar(s[0])] + ToLower(s[1..])
  }

  /** No ASCII capital letter occurs in `s`. */
  predicate IsLower(s: string) {
    forall i :: 0 <= i < |s| ==> !IsUpper(s[i])
  }

  lemma ToLowerIsLower(s: string)
    ensures IsLower(ToLower(s))
    ensures ToLower(ToLower(s)) == ToLower(s)
  {
  }

  lemma LowerStringUnchanged(s: string)
    requires IsLower(s)
    ensures ToLower(s) == s
  {
  }

  lemma {:induction false} ToLowerAppend(a: string, b: string)
    ensures ToLower(a + b) == ToLower(a) + ToLower(b)
    decreases |a|
  {
    if a != [] {
      assert (a + b)[1..] == a[1..] + b;
      ToLowerAppend(a[1..], b);
    }
  }

  /** Every string of `ss` lowercased. */
  function LowerAll(ss: seq<string>): (r: seq<string>)
    ensures |r| == |ss|
    ensures forall k :: 0 <= k < |ss| ==> r[k] == ToLower(ss[k])
  {
    if ss == [] then [] else [ToLower(ss[0])] + LowerAll(ss[1..])
  }

  predicate IsBlank(s: string) {
    forall i :: 0 <= i < |s| ==> IsSpace(s[i])
  }

  function TrimStart(s: string): (r: string)
    ensures |r| <= |s| && r == s[|s| - |r|..]
    ensures r == [] || !IsSpace(r[0])
    ensures IsBlank(s[..|s| - |r|])
  {
    if s != [] && IsSpace(s[0]) then
      var r := TrimStart(s[1..]);
      assert s[1..][|s| - 1 - |r|..] == s[|s| - |r|..];
      BlankCons(s, |s| - |r|);
      r
    else s
  }

  /** A blank run after a leading space is a longer blank run. */
  lemma BlankCons(s: string, k: nat)
    requires 0 < k <= |s| && IsSpace(s[0]) && IsBlank(s[1..][..k - 1])
    ensures IsBlank(s[..k])
  {
    forall i | 0 <= i < k ensures IsSpace(s[..k][i]) {
      if i > 0 {
        assert s[..k][i] == s[1..][..k - 1][i - 1];
      }
    }
  }

  function TrimEnd(s: string): (r: string)
    ensures |r| <= |s| && r == s[..|r|]
    ensures r == [] || !IsSpace(r[|r| - 1])
    ensures IsBlank(s[|r|..])
  {
    if s != [] && IsSpace(s[|s| - 1]) then
      var r := TrimEnd(s[..|s| - 1]);
      forall i | 0 <= i < |s[|r|..]| ensures IsSpace(s[|r|..][i]) {
        if |r| + i < |s| - 1 {
          assert s[|r|..][i] == s[..|s| - 1][|r|..][i];
        }
      }
      r
    else s
  }

  /** `String.prototype.trim`: the input with leading and trailing
      whitespace removed; the result is blank-free at both ends and empty
      exactly when the input was all whitespace. */
  function Trim(s: string): (r: string)
    ensures |r| <= |s|
    ensures r == [] || (!IsSpace(r[0]) && !IsSpace(r[|r| - 1]))
    ensures r == [] <==> IsBlank(s)
  {
    var t := TrimStart(s);
    var r := TrimEnd(t);
    assert r == s[|s| - |t|..|s| - |t| + |r|];
    if r == [] then
      assert s == s[..|s| - |t|] + t;
      assert t == t[|r|..];
      r
    else r
  }

  /** `sub` occurs in `s` as a contiguous block (`s.includes(sub)`). */
  predicate Contains(s: string, sub: string)
    decreases |s|
  {
    sub <= s || (s != [] && Contains(s[1..], sub))
  }

  /** `sub` occurs in `s` starting at index `i`. */
  predicate OccursAt(s: string, sub: string, i: int) {
    0 <= i && i + |sub| <= |s| && s[i..i + |sub|] == sub
  }

  /** Position-based reading of `Contains`. */
  lemma {:induction false} ContainsAt(s: string, sub: string)
    ensures Contains(s, sub) <==> exists i :: OccursAt(s, sub, i)
    decreases |s|
  {
    if sub <= s {
      assert OccursAt(s, sub, 0);
    } else if s != [] {
      ContainsAt(s[1..], sub);
      if exists i :: OccursAt(s[1..], sub, i) {
        var i :| OccursAt(s[1..], sub, i);
        OccursShift(s, sub, i + 1);
      }
      if exists i :: OccursAt(s, sub, i) {
        var i :| OccursAt(s, sub, i);
        assert i != 0;
        OccursShift(s, sub, i);
      }
    }
  }

  /** An occurrence after the first character is one in the tail. */
  lemma OccursShift(s: string, sub: string, i: int)
    requires s != [] && i >= 1
    ensures OccursAt(s, sub, i) <==> OccursAt(s[1..], sub, i - 1)
  {
    if i + |sub| <= |s| {
      assert s[1..][i - 1..i - 1 + |sub|] == s[i..i + |sub|];
    }
  }

  /** The empty string occurs in every string. */
  lemma ContainsEmpty(s: string)
    ensures Contains(s, "")
  {
  }

  /** First index at or after `i` holding a separator, or `|s|`. */
  function FirstSep(s: string, sep: char -> bool, i: nat): (k: nat)
    requires i <= |s|
    ensures i <= k <= |s|
    ensures forall j :: i <= j < k ==> !sep(s[j])
    ensures k < |s| ==> sep(s[k])
    decreases |s| - i
  {
    if i == |s| || sep(s[i]) then i else FirstSep(s, sep, i + 1)
  }

  /** The first separator at or after `i` is found where it is. */
  lemma {:induction false} FirstSepAt(s: string, sep: char -> bool, i: nat, k: nat)
    requires i <= k < |s| && sep(s[k])
    requires forall j :: i <= j < k ==> !sep(s[j])
    ensures FirstSep(s, sep, i) == k
    decreases k - i
  {
    if i < k { FirstSepAt(s, sep, i + 1, k); }
  }

  /** End of the run of characters satisfying `p` that starts at `i`. */
  function RunEnd(s: string, p: char -> bool, i: nat): (k: nat)
    requires i <= |s|
    ensures i <= k <= |s|
    ensures forall j :: i <= j < k ==> p(s[j])
    ensures k < |s| ==> !p(s[k])
    decreases |s| - i
  {
    if i < |s| && p(s[i]) then RunEnd(s, p, i + 1) else i
  }

  /** `s.split(/[C]+/)` for a character class C given as `sep`: the pieces
      between maximal runs of separators, including the empty leading or
      trailing piece when `s` starts or ends with a separator. */
  function SplitRuns(s: string, sep: char -> bool): (pieces: seq<string>)
    ensures |pieces| >= 1
    ensures forall k :: 0 <= k < |pieces| ==>
              forall j :: 0 <= j < |pieces[k]| ==> !sep(pieces[k][j])
    decreases |s|
  {
    var k := FirstSep(s, sep, 0);
    if k == |s| then [s]
    else
      var e := RunEnd(s, sep, k);
      [s[..k]] + SplitRuns(s[e..], sep)
  }

  function Concat(pieces: seq<string>): string {
    if pieces == [] then [] else pieces[0] + Concat(pieces[1..])
  }

  /** The characters of `s` that are not separators, in order. */
  function Without(s: string, sep: char -> bool): (r: string)
    ensures |r| <= |s|
    ensures forall i :: 0 <= i < |r| ==> !sep(r[i])
  {
    if s == [] then [] else (if sep(s[0]) then [] else [s[0]]) + Without(s[1..], sep)
  }

  lemma {:induction false} WithoutAppend(a: string, b: string, sep: char -> bool)
    ensures Without(a + b, sep) == Without(a, sep) + Without(b, sep)
    decreases |a|
  {
    if a != [] {
      var h := if sep(a[0]) then [] else [a[0]];
      assert (a + b)[0] == a[0] && (a + b)[1..] == a[1..] + b;
      assert Without(a + b, sep) == h + Without(a[1..] + b, sep);
      WithoutAppend(a[1..], b, sep);
    } else {
      assert a + b == b;
    }
  }

  lemma {:induction false} WithoutNone(s: string, sep: char -> bool)
    requires forall j :: 0 <= j < |s| ==> !sep(s[j])
    ensures Without(s, sep) == s
    decreases |s|
  {
    if s != [] { WithoutNone(s[1..], sep); }
  }

  lemma {:induction false} WithoutAll(s: string, sep: char -> bool)
    requires forall j :: 0 <= j < |s| ==> sep(s[j])
    ensures Without(s, sep) == []
    decreases |s|
  {
    if s != [] { WithoutAll(s[1..], sep); }
  }

  /** Splitting loses exactly the separators: gluing the pieces back
      together gives the input with its separator characters removed. */
  lemma {:induction false} SplitRunsConcat(s: string, sep: char -> bool)
    ensures Concat(SplitRuns(s, sep)) == Without(s, sep)
    decreases |s|
  {
    var k := FirstSep(s, sep, 0);
    if k == |s| {
      WithoutNone(s, sep);
    } else {
      var e := RunEnd(s, sep, k);
      SplitRunsConcat(s[e..], sep);
      SplitRunsStep(s, sep, k, e);
    }
  }

  /** One piece of the split: the piece before the first run of separators,
      then the split of what follows the run. */
  lemma SplitRunsStep(s: string, sep: char -> bool, k: nat, e: nat)
    requires k == FirstSep(s, sep, 0) && k < |s| && e == RunEnd(s, sep, k)
    ensures Concat(SplitRuns(s, sep)) == s[..k] + Concat(SplitRuns(s[e..], sep))
    ensures Without(s, sep) == s[..k] + Without(s[e..], sep)
  {
    var rest := SplitRuns(s[e..], sep);
    assert SplitRuns(s, sep) == [s[..k]] + rest;
    assert ([s[..k]] + rest)[1..] == rest;
    WithoutStep(s, sep, k, e);
  }

  lemma WithoutStep(s: string, sep: char -> bool, k: nat, e: nat)
    requires k <= e <= |s|
    requires forall j :: 0 <= j < k ==> !sep(s[j])
    requires forall j :: k <= j < e ==> sep(s[j])
    ensures Without(s, sep) == s[..k] + Without(s[e..], sep)
  {
    Pieces(s, k, e);
    var a, m := s[..k], s[k..e];
    forall j | 0 <= j < |a| ensures !sep(a[j]) {
      assert a[j] == s[j];
    }
    forall j | 0 <= j < |m| ensures sep(m[j]) {
      assert m[j] == s[k + j];
    }
    WithoutGlue(a, m, s[e..], sep);
  }

  /** Removing characters keeps any property every character has. */
  lemma {:induction false} WithoutKeeps(s: string, sep: char -> bool, p: char -> bool)
    requires forall i :: 0 <= i < |s| ==> p(s[i])
    ensures forall i :: 0 <= i < |Without(s, sep)| ==> p(Without(s, sep)[i])
    decreases |s|
  {
    if s != [] {
      WithoutKeeps(s[1..], sep, p);
      var h := if sep(s[0]) then [] else [s[0]];
      assert Without(s, sep) == h + Without(s[1..], sep);
    }
  }

  /** Every character of every piece has any property every character of
      the input has. */
  lemma {:induction false} SplitRunsKeeps(s: string, sep: char -> bool, p: char -> bool)
    requires forall i :: 0 <= i < |s| ==> p(s[i])
    ensures forall k :: 0 <= k < |SplitRuns(s, sep)| ==>
              forall j :: 0 <= j < |SplitRuns(s, sep)[k]| ==> p(SplitRuns(s, sep)[k][j])
    decreases |s|
  {
    var k := FirstSep(s, sep, 0);
    if k < |s| {
      var e := RunEnd(s, sep, k);
      var rest := SplitRuns(s[e..], sep);
      SplitRunsKeeps(s[e..], sep, p);
      assert SplitRuns(s, sep) == [s[..k]] + rest;
      assert forall j :: 0 <= j < k ==> s[..k][j] == s[j];
    } else {
      assert SplitRuns(s, sep) == [s];
    }
  }

  /** A sequence cut in two places is the three pieces joined. */
  lemma Pieces<T>(s: seq<T>, k: nat, e: nat)
    requires k <= e <= |s|
    ensures s == s[..k] + s[k..e] + s[e..]
  {
  }

  /** A piece free of separators, then a run of separators, then the rest. */
  lemma WithoutGlue(a: string, m: string, b: string, sep: char -> bool)
    requires forall j :: 0 <= j < |a| ==> !sep(a[j])
    requires forall j :: 0 <= j < |m| ==> sep(m[j])
    ensures Without(a + m + b, sep) == a + Without(b, sep)
  {
    WithoutAppend(a + m, b, sep);
    WithoutAppend(a, m, sep);
    WithoutNone(a, sep);
    WithoutAll(m, sep);
    assert Without(a + m, sep) == a + [];
    assert a + [] == a;
  }

  /** `parts.join(sep)`. */
  function Join(parts: seq<string>, sep: string): string {
    if parts == [] then []
    else if |parts| == 1 then parts[0]
    else parts[0] + sep + Join(parts[1..], sep)
  }

  /** The regex assertion `\b` at position `k` of `s`: a word character on
      exactly one side. */
  predicate Boundary(s: string, k: nat)
    requires k <= |s|
  {
    (k > 0 && IsWordChar(s[k - 1])) != (k < |s| && IsWordChar(s[k]))
  }
}
