/** Word-frequency maps and their merge, `reduce_dicts` in countwords.py.

    Maps are values here, so `Merge` can neither alias nor modify its
    arguments: the fresh copy the source makes of `dict1` before adding
    `dict2` into it is implicit.
 */
module FrequencyMap {
  import opened Fold

  /** A mapping from token to the number of times it occurred. */
  type FreqMap = map<string, nat>

  /** The count of `k` in `m`, with an absent key counting 0. */
  function Count(m: FreqMap, k: string): nat {
    if k in m then m[k] else 0
  }

  /** Every stored count is at least 1, as in the maps `count_words` builds. */
  ghost predicate Positive(m: FreqMap) {
    forall k | k in m :: m[k] >= 1
  }

  /** The merge of two frequency maps: every key of either, with its two
      counts added. */
  function Merge(d1: FreqMap, d2: FreqMap): FreqMap {
    map k | k in d1.Keys + d2.Keys :: Count(d1, k) + Count(d2, k)
  }

  /** The explicit copy at the head of `reduce_dicts`: an empty map into
      which every key of `dict1` is stored with its count. */
  method CopyDict(dict1: FreqMap) returns (combined: FreqMap)
    ensures combined == dict1
  {
    combined := map[];
    var todo := dict1.Keys;
    while todo != {}
      invariant todo <= dict1.Keys
      invariant combined.Keys == dict1.Keys - todo
      invariant forall k | k in combined :: combined[k] == dict1[k]
      decreases todo
    {
      var key :| key in todo;
      combined := combined[key := dict1[key]];
      todo := todo - {key};
    }
  }

  /** `reduce_dicts(dict1, dict2)` as the source writes it: copy `dict1`,
      then add each key of `dict2`, either increasing an existing count or
      inserting a new one. */
  method ReduceDicts(dict1: FreqMap, dict2: FreqMap) returns (combined: FreqMap)
    ensures combined.Keys == dict1.Keys + dict2.Keys
    ensures forall k | k in combined :: combined[k] == Count(dict1, k) + Count(dict2, k)
    ensures combined == Merge(dict1, dict2)
  {
    combined := CopyDict(dict1);
    var todo := dict2.Keys;
    while todo != {}
      invariant todo <= dict2.Keys
      invariant combined.Keys == dict1.Keys + (dict2.Keys - todo)
      invariant PartlyMerged(dict1, dict2, todo, combined)
      decreases todo
    {
      var key :| key in todo;
      ghost var before := combined;
      if key in combined {
        combined := combined[key := combined[key] + dict2[key]];
      } else {
        combined := combined[key := dict2[key]];
      }
      AddKeyStep(dict1, dict2, todo, before, key, combined);
      todo := todo - {key};
    }
    MergeEqual(dict1, dict2, combined);
  }

  /** `combined` holds the keys of `d1` and the keys of `d2` outside
      `todo`, each with the counts added so far. */
  ghost predicate PartlyMerged(d1: FreqMap, d2: FreqMap, todo: set<string>, combined: FreqMap) {
    && combined.Keys == d1.Keys + (d2.Keys - todo)
    && forall k | k in combined ::
         combined[k] == Count(d1, k) + (if k in todo then 0 else Count(d2, k))
  }

  lemma AddKeyStep(d1: FreqMap, d2: FreqMap, todo: set<string>, before: FreqMap, key: string, after: FreqMap)
    requires key in todo && todo <= d2.Keys
    requires PartlyMerged(d1, d2, todo, before)
    requires after == before[key := Count(before, key) + d2[key]]
    ensures PartlyMerged(d1, d2, todo - {key}, after)
  {
  }

  /** A map with the merged keys and the summed counts is the merge. */
  lemma MergeEqual(d1: FreqMap, d2: FreqMap, m: FreqMap)
    requires m.Keys == d1.Keys + d2.Keys
    requires forall k | k in m :: m[k] == Count(d1, k) + Count(d2, k)
    ensures m == Merge(d1, d2)
  {
    var r := Merge(d1, d2);
    assert m.Keys == r.Keys;
    forall k | k in m
      ensures m[k] == r[k]
    {
    }
  }

  /** A frequency map whose counts are all at least 1 is determined by its
      counts. */
  lemma PositiveEqual(m1: FreqMap, m2: FreqMap)
    requires Positive(m1) && Positive(m2)
    requires forall k :: Count(m1, k) == Count(m2, k)
    ensures m1 == m2
  {
    assert forall k | k in m1 :: Count(m2, k) >= 1;
    assert forall k | k in m2 :: Count(m1, k) >= 1;
    assert m1.Keys == m2.Keys;
  }

  /** The per-key sum law: a key's merged count is the sum of its counts. */
  lemma MergeCount(d1: FreqMap, d2: FreqMap, k: string)
    ensures Count(Merge(d1, d2), k) == Count(d1, k) + Count(d2, k)
    ensures k in Merge(d1, d2) <==> k in d1 || k in d2
  {
  }

  lemma MergeCommutative(a: FreqMap, b: FreqMap)
    ensures Merge(a, b) == Merge(b, a)
  {
  }

  lemma MergeAssociative(a: FreqMap, b: FreqMap, c: FreqMap)
    ensures Merge(Merge(a, b), c) == Merge(a, Merge(b, c))
  {
    var l, r := Merge(Merge(a, b), c), Merge(a, Merge(b, c));
    assert l.Keys == r.Keys;
    forall k | k in l
      ensures l[k] == r[k]
    {
      MergeCount(Merge(a, b), c, k);
      MergeCount(a, b, k);
      MergeCount(a, Merge(b, c), k);
      MergeCount(b, c, k);
    }
  }

  /** The empty map is a two-sided identity of the merge. */
  lemma MergeIdentity(d: FreqMap)
    ensures Merge(d, map[]) == d
    ensures Merge(map[], d) == d
  {
  }

  /** Merging keeps every stored count at least 1. */
  lemma MergePositive(a: FreqMap, b: FreqMap)
    requires Positive(a) && Positive(b)
    ensures Positive(Merge(a, b))
  {
  }

  /** The merge is a valid combiner for an order-independent reduction. */
  lemma MergeIsAcCombiner()
    ensures Associative(Merge)
    ensures Commutative(Merge)
  {
    forall a, b, c
      ensures Merge(Merge(a, b), c) == Merge(a, Merge(b, c))
    {
      MergeAssociative(a, b, c);
    }
    forall a, b
      ensures Merge(a, b) == Merge(b, a)
    {
      MergeCommutative(a, b);
    }
  }

  /** The total count of `k` over a sequence of maps. */
  function SumCount(ms: seq<FreqMap>, k: string): nat {
    if |ms| == 0 then 0 else SumCount(ms[..|ms| - 1], k) + Count(ms[|ms| - 1], k)
  }

  /** A key occurs in some map of the sequence. */
  ghost predicate InSome(ms: seq<FreqMap>, k: string) {
    exists i | 0 <= i < |ms| :: k in ms[i]
  }

  /** Folding the merge over the per-file maps gives, for each key, the sum
      of that key's counts over all files, and holds exactly the keys that
      occur in some file's map. */
  lemma {:induction false} MergeAllCounts(ms: seq<FreqMap>, k: string)
    requires |ms| > 0
    ensures Count(Fold1(Merge, ms), k) == SumCount(ms, k)
    ensures k in Fold1(Merge, ms) <==> InSome(ms, k)
    decreases |ms|
  {
    var n := |ms|;
    if n == 1 {
      assert SumCount(ms[..0], k) == 0;
      assert InSome(ms, k) ==> k in ms[0];
    } else {
      var init := ms[..n - 1];
      MergeAllCounts(init, k);
      MergeCount(Fold1(Merge, init), ms[n - 1], k);
      if InSome(init, k) {
        var i :| 0 <= i < |init| && k in init[i];
        assert k in ms[i];
      }
      if InSome(ms, k) {
        var i :| 0 <= i < n && k in ms[i];
        if i < n - 1 {
          assert k in init[i];
        }
      }
    }
  }

  /** Folding maps whose counts are all at least 1 gives such a map. */
  lemma {:induction false} MergeAllPositive(ms: seq<FreqMap>)
    requires |ms| > 0
    requires forall i | 0 <= i < |ms| :: Positive(ms[i])
    ensures Positive(Fold1(Merge, ms))
    decreases |ms|
  {
    if |ms| > 1 {
      MergeAllPositive(ms[..|ms| - 1]);
      MergePositive(Fold1(Merge, ms[..|ms| - 1]), ms[|ms| - 1]);
    }
  }
}
