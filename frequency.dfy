/** The frequency tables that `extractKeywords`, `extractPhrases`,
    `generateSummary` and `extractPotentialTags` build in a plain object
    (`counts[key] = (counts[key] || 0) + 1`), and the
    `Object.entries(...).filter(...).sort(byCountDesc).slice(0, n).map(key)`
    chain that ranks them.

    `Object.entries` lists an object's own keys in ECMAScript property
    order: the canonical array-index keys first, in ascending numeric order,
    then every other key in insertion order. The model keeps that order. */
module Frequency {
  import opened Collections

  datatype Entry = Entry(key: string, count: nat)

  /** Occurrences of `k` in `keys`. */
  function Occ(keys: seq<string>, k: string): nat {
    multiset(keys)[k]
  }

  /** The sort key of `(a, b) => b[1] - a[1]`. */
  function CountKey(e: Entry): real {
    e.count as real
  }

  predicate IsDigit(c: char) { '0' <= c <= '9' }

  predicate AllDigits(s: string) {
    forall i :: 0 <= i < |s| ==> IsDigit(s[i])
  }

  /** The decimal value of a string of digits. */
  function DigitsValue(s: string): nat
    requires AllDigits(s)
  {
    if s == [] then 0 else DigitsValue(s[..|s| - 1]) * 10 + (s[|s| - 1] as int - '0' as int)
  }

  /** Largest array index, 2^32 - 2. */
  const MaxArrayIndex: nat := 4294967294

  /** A canonical array index: decimal digits without a leading zero (other
      than "0" itself) whose value is at most 2^32 - 2. */
  predicate IsArrayIndex(s: string) {
    && |s| > 0 && AllDigits(s) && (s[0] != '0' || |s| == 1)
    && DigitsValue(s) <= MaxArrayIndex
  }

  /** Ascending numeric order, expressed as a descending sort key. */
  function IndexKey(s: string): real {
    if AllDigits(s) then -(DigitsValue(s) as real) else 0.0
  }

  /** ECMAScript property order of an object whose keys were created in the
      order `keys` (distinct). */
  function PropertyOrder(keys: seq<string>): (r: seq<string>)
    ensures multiset(r) == multiset(keys)
    ensures forall i :: 0 <= i < |r| ==> r[i] in keys
  {
    var idx := Filter(keys, IsArrayIndex);
    FilterPartition(keys, IsArrayIndex);
    SortDescCorrect(idx, IndexKey);
    var r := SortDesc(idx, IndexKey) + FilterOut(keys, IsArrayIndex);
    assert forall i :: 0 <= i < |r| ==> r[i] in multiset(keys);
    r
  }

  /** With no array-index key among them, keys are listed in insertion
      order. */
  lemma {:induction false} PropertyOrderInsertion(keys: seq<string>)
    requires forall i :: 0 <= i < |keys| ==> !IsArrayIndex(keys[i])
    ensures PropertyOrder(keys) == keys
  {
    FilterNone(keys);
    FilterOutNone(keys);
  }

  lemma {:induction false} FilterNone(keys: seq<string>)
    requires forall i :: 0 <= i < |keys| ==> !IsArrayIndex(keys[i])
    ensures Filter(keys, IsArrayIndex) == []
    decreases |keys|
  {
    if keys != [] { FilterNone(keys[1..]); }
  }

  lemma {:induction false} FilterOutNone(keys: seq<string>)
    requires forall i :: 0 <= i < |keys| ==> !IsArrayIndex(keys[i])
    ensures FilterOut(keys, IsArrayIndex) == keys
    decreases |keys|
  {
    if keys != [] { FilterOutNone(keys[1..]); }
  }

  /** The entries of the table counted over `seen`, in property order. */
  function Table(seen: seq<string>): (t: seq<Entry>)
  {
    var p := PropertyOrder(Distinct(seen));
    seq(|p|, i requires 0 <= i < |p| => Entry(p[i], Occ(seen, p[i])))
  }

  /** Each key of the table is a distinct element of `seen`, carrying its
      number of occurrences, and every element of `seen` has an entry. */
  lemma TableEntries(seen: seq<string>)
    ensures forall e :: e in Table(seen) ==> e.key in seen && e.count == Occ(seen, e.key) && e.count >= 1
    ensures forall k :: k in seen ==> Entry(k, Occ(seen, k)) in Table(seen)
    ensures NoDup(Table(seen))
  {
    TableSound(seen);
    TableComplete(seen);
    var d := Distinct(seen);
    var p := PropertyOrder(d);
    var t := Table(seen);
    PermutationNoDup(d, p);
    KeysNoDup(t, p);
  }

  lemma TableSound(seen: seq<string>)
    ensures forall e :: e in Table(seen) ==> e.key in seen && e.count == Occ(seen, e.key) && e.count >= 1
  {
    var p := PropertyOrder(Distinct(seen));
    var t := Table(seen);
    forall e | e in t ensures e.key in seen && e.count == Occ(seen, e.key) && e.count >= 1 {
      var i :| 0 <= i < |t| && t[i] == e;
      assert p[i] in Distinct(seen);
      assert e.key in multiset(seen);
    }
  }

  lemma TableComplete(seen: seq<string>)
    ensures forall k :: k in seen ==> Entry(k, Occ(seen, k)) in Table(seen)
  {
    var d := Distinct(seen);
    var p := PropertyOrder(d);
    var t := Table(seen);
    forall k | k in seen ensures Entry(k, Occ(seen, k)) in t {
      assert k in multiset(d);
      assert k in multiset(p);
      var i :| 0 <= i < |p| && p[i] == k;
      assert t[i] == Entry(k, Occ(seen, k));
    }
  }

  /** Entries whose keys are distinct are distinct. */
  lemma KeysNoDup(t: seq<Entry>, p: seq<string>)
    requires |t| == |p| && NoDup(p)
    requires forall i :: 0 <= i < |t| ==> t[i].key == p[i]
    ensures NoDup(t)
  {
  }

  /** The abstract state of a frequency object after counting `seen`:
      `order` is its key-creation order, `counts` its values. */
  ghost predicate Tallies(order: seq<string>, counts: map<string, nat>, seen: seq<string>) {
    && order == Distinct(seen)
    && (forall k :: k in counts <==> k in seen)
    && (forall k :: k in counts ==> counts[k] == Occ(seen, k))
  }

  /** One `counts[k] = (counts[k] || 0) + 1` step. */
  method Record(order: seq<string>, counts: map<string, nat>, ghost seen: seq<string>, k: string)
    returns (order': seq<string>, counts': map<string, nat>)
    requires Tallies(order, counts, seen)
    ensures Tallies(order', counts', seen + [k])
  {
    DistinctSnoc(seen, k);
    CountsSnoc(counts, seen, k);
    if k in counts {
      order', counts' := order, counts[k := counts[k] + 1];
    } else {
      order', counts' := order + [k], counts[k := 1];
    }
  }

  /** The map part of one counting step. */
  lemma CountsSnoc(counts: map<string, nat>, seen: seq<string>, k: string)
    requires forall x :: x in counts <==> x in seen
    requires forall x :: x in counts ==> counts[x] == Occ(seen, x)
    ensures var c := counts[k := if k in counts then counts[k] + 1 else 1];
            && (forall x :: x in c <==> x in seen + [k])
            && (forall x :: x in c ==> c[x] == Occ(seen + [k], x))
  {
    var c := counts[k := if k in counts then counts[k] + 1 else 1];
    var s := seen + [k];
    assert multiset(s) == multiset(seen) + multiset{k};
    forall x ensures x in c <==> x in s {
      assert x in s <==> x in seen || x == k;
    }
    forall x | x in c ensures c[x] == Occ(s, x) {
      if x != k {
        assert x in seen;
      }
    }
  }

  /** Counts every key of `keys` in one pass. */
  method Tally(keys: seq<string>) returns (order: seq<string>, counts: map<string, nat>)
    ensures Tallies(order, counts, keys)
  {
    order, counts := [], map[];
    for i := 0 to |keys|
      invariant Tallies(order, counts, keys[..i])
    {
      assert keys[..i + 1] == keys[..i] + [keys[i]];
      order, counts := Record(order, counts, keys[..i], keys[i]);
    }
    assert keys[..|keys|] == keys;
  }

  /** `Object.entries` of the counted object. */
  function EntriesOf(order: seq<string>, counts: map<string, nat>): seq<Entry>
    requires forall k :: k in order ==> k in counts
  {
    var p := PropertyOrder(order);
    seq(|p|, i requires 0 <= i < |p| => Entry(p[i], counts[p[i]]))
  }

  /** What the counting loop builds is the table of what it counted. */
  lemma TalliedTable(order: seq<string>, counts: map<string, nat>, seen: seq<string>)
    requires Tallies(order, counts, seen)
    ensures forall k :: k in order ==> k in counts
    ensures EntriesOf(order, counts) == Table(seen)
  {
    var p := PropertyOrder(order);
    assert forall k :: k in order ==> k in seen;
    var a := EntriesOf(order, counts);
    var b := Table(seen);
    assert |a| == |b| == |p|;
    forall i | 0 <= i < |p| ensures a[i] == b[i] {
      assert p[i] in order;
    }
  }

  function KeysOf(es: seq<Entry>): (ks: seq<string>)
    ensures |ks| == |es|
    ensures forall i :: 0 <= i < |es| ==> ks[i] == es[i].key
  {
    if es == [] then [] else [es[0].key] + KeysOf(es[1..])
  }

  /** The ranked entries that survive the entry filter `keep`. */
  function Ranked(seen: seq<string>, keep: Entry -> bool): seq<Entry> {
    SortDesc(Filter(Table(seen), keep), CountKey)
  }

  /** `Object.entries(counts).filter(keep).sort(byCountDesc).slice(0, n).map(([k]) => k)`. */
  function TopKeys(seen: seq<string>, keep: Entry -> bool, n: nat): seq<string> {
    KeysOf(Take(Ranked(seen, keep), n))
  }

  /** Each ranked entry is a counted key with its number of occurrences
      that passes the filter; the ranking has no entry twice and is in
      non-increasing order of counts. */
  lemma RankedFacts(seen: seq<string>, keep: Entry -> bool)
    ensures forall e :: e in Ranked(seen, keep) ==>
              e.key in seen && e.count == Occ(seen, e.key) && keep(e)
    ensures NoDup(Ranked(seen, keep))
    ensures SortedDesc(Ranked(seen, keep), CountKey)
  {
    var t := Table(seen);
    var f := Filter(t, keep);
    var s := Ranked(seen, keep);
    TableEntries(seen);
    SortDescCorrect(f, CountKey);
    FilterNoDup(t, keep);
    PermutationNoDup(f, s);
    forall e | e in s ensures e in f {
      assert e in multiset(s);
    }
  }

  /** At most `n` keys, each a counted key whose entry passes the filter. */
  lemma TopKeysMembers(seen: seq<string>, keep: Entry -> bool, n: nat)
    ensures var r := TopKeys(seen, keep, n);
      && |r| <= n
      && forall i :: 0 <= i < |r| ==> r[i] in seen && keep(Entry(r[i], Occ(seen, r[i])))
  {
    var s := Ranked(seen, keep);
    var top := Take(s, n);
    RankedFacts(seen, keep);
    forall i | 0 <= i < |top| ensures top[i] in s {
      assert top[i] == s[i];
    }
  }

  /** No key twice, and keys in non-increasing order of occurrences. */
  lemma TopKeysOrdered(seen: seq<string>, keep: Entry -> bool, n: nat)
    ensures var r := TopKeys(seen, keep, n);
      && NoDup(r)
      && forall i, j :: 0 <= i < j < |r| ==> Occ(seen, r[i]) >= Occ(seen, r[j])
  {
    var s := Ranked(seen, keep);
    var top := Take(s, n);
    var r := KeysOf(top);
    RankedFacts(seen, keep);
    assert forall i :: 0 <= i < |top| ==> top[i] == s[i];
    forall i | 0 <= i < |top| ensures top[i] == Entry(r[i], Occ(seen, r[i])) {
      assert s[i] in s;
    }
  }

  /** A key that passes the filter but is missing was crowded out by `n`
      keys occurring at least as often. */
  lemma TopKeysComplete(seen: seq<string>, keep: Entry -> bool, n: nat, k: string)
    requires k in seen && keep(Entry(k, Occ(seen, k)))
    requires k !in TopKeys(seen, keep, n)
    ensures |TopKeys(seen, keep, n)| == n
    ensures forall i :: 0 <= i < |TopKeys(seen, keep, n)| ==> Occ(seen, TopKeys(seen, keep, n)[i]) >= Occ(seen, k)
  {
    var t := Table(seen);
    var f := Filter(t, keep);
    var s := Ranked(seen, keep);
    var top := Take(s, n);
    var r := KeysOf(top);
    TableEntries(seen);
    RankedFacts(seen, keep);
    SortDescCorrect(f, CountKey);
    var e := Entry(k, Occ(seen, k));
    assert e in f;
    assert e !in top by {
      forall i | 0 <= i < |top| ensures top[i] != e {
        assert r[i] != k;
      }
    }
    TakeSortedKeepsLargest(f, CountKey, n, e);
    forall i | 0 <= i < |r| ensures Occ(seen, r[i]) >= Occ(seen, k) {
      assert top[i] in top && top[i] == s[i] && s[i] in s;
    }
    assert e in multiset(s);
  }

  /** Ties keep the order of the table (insertion order when no key is an
      array index): among the entries with any one count, the ranking
      lists them as the table does. */
  lemma TopKeysTies(seen: seq<string>, keep: Entry -> bool, c: nat)
    ensures WithKey(Ranked(seen, keep), CountKey, c as real)
         == WithKey(Filter(Table(seen), keep), CountKey, c as real)
  {
    SortDescStable(Filter(Table(seen), keep), CountKey, c as real);
  }
}
