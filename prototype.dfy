/** Word counting on a plain JavaScript object, as the frequency loops of
    `extractKeywords`, `generateSummary` and `extractPotentialTags` write
    it: `counts[word] = (counts[word] || 0) + 1`. Reading a key the object
    does not own falls through to `Object.prototype`, whose `constructor`
    is the function `Object`; the only inherited property whose name can
    be a counted word is that one. The rest of the model counts with
    natural numbers (`Frequency.Tally`), which is what the loops intend. */
module ObjectCounts {
  import opened Frequency
  import Extraction

  /** The values a count can take. */
  datatype JsValue = Undefined | Num(n: nat) | Fn(source: string) | Str(s: string)

  /** What `String(Object)` gives. */
  const ObjectSource: string := "function Object() { [native code] }"

  /** `counts[k]`: an own property, else what `Object.prototype` has. */
  function Get(own: map<string, JsValue>, k: string): JsValue {
    if k in own then own[k] else if k == "constructor" then Fn(ObjectSource) else Undefined
  }

  /** `(v || 0) + 1`: undefined and the empty string are falsy; adding a
      number to a function or to a non-empty string concatenates text. */
  function Bump(v: JsValue): JsValue {
    match v
    case Undefined => Num(1)
    case Num(n) => Num(n + 1)
    case Fn(src) => Str(src + "1")
    case Str(s) => if s == [] then Num(1) else Str(s + "1")
  }

  /** The object after counting `keys` in order. */
  function CountAsWritten(keys: seq<string>): map<string, JsValue>
    decreases |keys|
  {
    if keys == [] then map[]
    else
      var own := CountAsWritten(keys[..|keys| - 1]);
      var k := keys[|keys| - 1];
      own[k := Bump(Get(own, k))]
  }

  /** The counting loop as written. */
  method CountObject(keys: seq<string>) returns (own: map<string, JsValue>)
    ensures own == CountAsWritten(keys)
  {
    own := map[];
    for i := 0 to |keys|
      invariant own == CountAsWritten(keys[..i])
    {
      assert keys[..i + 1][..i] == keys[..i];
      own := own[keys[i] := Bump(Get(own, keys[i]))];
    }
    assert keys[..|keys|] == keys;
  }

  /** `count > 1`: a string that is not a numeral compares as NaN, so it
      is never greater than 1 (every string a count can become starts with
      the text of `Object`). */
  predicate GreaterThanOne(v: JsValue) {
    match v
    case Num(n) => n > 1
    case _ => false
  }

  /** The text "1" repeated `n` times. */
  function Ones(n: nat): string {
    if n == 0 then [] else Ones(n - 1) + "1"
  }

  /** Every word but `constructor` is counted right: its value is its
      number of occurrences, absent when it does not occur. */
  lemma {:induction false} OtherWordsCounted(keys: seq<string>, k: string)
    requires k != "constructor"
    ensures Get(CountAsWritten(keys), k) == if Occ(keys, k) == 0 then Undefined else Num(Occ(keys, k))
    decreases |keys|
  {
    if keys != [] {
      var init := keys[..|keys| - 1];
      OtherWordsCounted(init, k);
      assert keys == init + [keys[|keys| - 1]];
      assert multiset(keys) == multiset(init) + multiset{keys[|keys| - 1]};
    }
  }

  /** `constructor`, once seen, holds the text of `Object` followed by one
      "1" per occurrence: it is never a number and never passes
      `count > 1`, however often the word occurs. */
  lemma {:induction false} ConstructorNeverCounted(keys: seq<string>)
    ensures var v := Get(CountAsWritten(keys), "constructor");
            && (Occ(keys, "constructor") == 0 ==> v == Fn(ObjectSource))
            && (Occ(keys, "constructor") > 0 ==> v == Str(ObjectSource + Ones(Occ(keys, "constructor"))))
            && !GreaterThanOne(v)
    decreases |keys|
  {
    if keys != [] {
      var init := keys[..|keys| - 1];
      ConstructorNeverCounted(init);
      assert keys == init + [keys[|keys| - 1]];
      assert multiset(keys) == multiset(init) + multiset{keys[|keys| - 1]};
      if keys[|keys| - 1] == "constructor" && Occ(init, "constructor") > 0 {
        assert ObjectSource + Ones(Occ(init, "constructor")) + "1"
            == ObjectSource + Ones(Occ(keys, "constructor"));
      }
    }
  }

  /** The word `constructor` written twice: as written, its count is the
      string "function Object() { [native code] }11", which fails the
      repeated-word filter although the word occurs twice. */
  lemma ConstructorCountLost()
    ensures var keys := ["constructor", "constructor"];
            var v := Get(CountAsWritten(keys), "constructor");
            && Occ(keys, "constructor") == 2
            && v == Str(ObjectSource + "11")
            && !GreaterThanOne(v)
  {
    var keys := ["constructor", "constructor"];
    assert keys[..1] == ["constructor"];
    assert keys[..1][..0] == [];
  }

  /** With counts kept as numbers, the same two words make `constructor`
      a repeated word: it is the one key term of the list. */
  lemma ConstructorCounted()
    ensures var keys := ["constructor", "constructor"];
            TopKeys(keys, Extraction.Repeated, 5) == ["constructor"]
  {
    var keys := ["constructor", "constructor"];
    var r := TopKeys(keys, Extraction.Repeated, 5);
    assert Occ(keys, "constructor") == 2;
    TopKeysMembers(keys, Extraction.Repeated, 5);
    TopKeysOrdered(keys, Extraction.Repeated, 5);
    if "constructor" !in r {
      TopKeysComplete(keys, Extraction.Repeated, 5, "constructor");
    }
  }
}
