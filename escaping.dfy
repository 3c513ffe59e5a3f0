/** `escapeRegExp`: a backslash before every regular-expression
    metacharacter, so that the text can be embedded in a pattern and match
    itself literally. */
module Escaping {

  /** The class `[.*+?^${}()|[\]\\]`. */
  predicate IsMeta(c: char) {
    c in {'.', '*', '+', '?', '^', '$', '{', '}', '(', ')', '|', '[', ']', '\\'}
  }

  function CountMeta(s: string): nat {
    if s == [] then 0 else (if IsMeta(s[0]) then 1 else 0) + CountMeta(s[1..])
  }

  function Escape(s: string): (r: string)
    ensures |r| == |s| + CountMeta(s)
    ensures (forall i :: 0 <= i < |s| ==> !IsMeta(s[i])) ==> r == s
  {
    if s == [] then []
    else (if IsMeta(s[0]) then ['\\', s[0]] else [s[0]]) + Escape(s[1..])
  }

  /** Reads an escaped pattern back: a backslash makes the next character
      literal. */
  function Unescape(t: string): (r: string)
    ensures |r| <= |t|
  {
    if t == [] then []
    else if t[0] == '\\' && |t| >= 2 then [t[1]] + Unescape(t[2..])
    else [t[0]] + Unescape(t[1..])
  }

  /** Escaping loses nothing: the escaped text reads back as the original. */
  lemma {:induction false} UnescapeEscape(s: string)
    ensures Unescape(Escape(s)) == s
  {
    if s != [] {
      UnescapeEscape(s[1..]);
      var head := if IsMeta(s[0]) then ['\\', s[0]] else [s[0]];
      assert Escape(s) == head + Escape(s[1..]);
      if IsMeta(s[0]) {
        assert Escape(s)[2..] == Escape(s[1..]);
      } else {
        assert Escape(s)[1..] == Escape(s[1..]);
      }
    }
  }

  /** Every metacharacter of the escaped text is either an inserted
      backslash or is preceded by one. */
  lemma {:induction false} EscapedMetaIsQuoted(s: string)
    ensures var r := Escape(s);
            forall i :: 0 <= i < |r| && IsMeta(r[i]) && r[i] != '\\' ==> i > 0 && r[i - 1] == '\\'
  {
    if s != [] {
      EscapedMetaIsQuoted(s[1..]);
      var head := if IsMeta(s[0]) then ['\\', s[0]] else [s[0]];
      var r := Escape(s);
      assert r == head + Escape(s[1..]);
      forall i | 0 <= i < |r| && IsMeta(r[i]) && r[i] != '\\' ensures i > 0 && r[i - 1] == '\\' {
        if i >= |head| {
          assert r[i] == Escape(s[1..])[i - |head|];
          if i - |head| == 0 {
            assert false;
          } else {
            assert r[i - 1] == Escape(s[1..])[i - |head| - 1];
          }
        }
      }
    }
  }
}
