/** The report at the end of countwords.py: walk the keys of the global
    map in sorted order and print those whose count exceeds 2000. The
    printed text is not modelled; the report is the sequence of keys it
    prints, each printed beside its count in the map.
 */
module Report {
  import opened Wrappers
  import opened Text
  import opened Lex
  import opened Fold
  import opened FrequencyMap
  import opened WordCount

  /** The threshold the script compares every count against. */
  const Threshold: nat := 2000

  /** Inserts a new key into a strictly ascending sequence of keys. */
  function Insert(s: seq<string>, x: string): (r: seq<string>)
    requires StrictlySorted(s)
    requires x !in s
    ensures StrictlySorted(r)
    ensures forall y :: y in r <==> y in s || y == x
    ensures |r| == |s| + 1
  {
    if |s| == 0 then [x]
    else if Less(x, s[0]) then
      assert forall j | 0 < j < |s| :: Less(x, s[j]) by {
        forall j | 0 < j < |s| ensures Less(x, s[j]) {
          LessTransitive(x, s[0], s[j]);
        }
      }
      [x] + s
    else
      var rest := Insert(s[1..], x);
      assert forall j | 0 <= j < |rest| :: Less(s[0], rest[j]) by {
        LessConnected(x, s[0]);
        forall j | 0 <= j < |rest| ensures Less(s[0], rest[j]) {
          assert rest[j] in rest;
          if rest[j] != x {
            var k :| 0 <= k < |s[1..]| && s[1..][k] == rest[j];
            assert s[k + 1] == rest[j];
          }
        }
      }
      [s[0]] + rest
  }

  /** `sorted(keys)`: the keys in strictly ascending order. */
  method SortKeys(keys: set<string>) returns (sorted: seq<string>)
    ensures StrictlySorted(sorted)
    ensures forall k :: k in sorted <==> k in keys
    ensures |sorted| == |keys|
  {
    sorted := [];
    var todo := keys;
    while todo != {}
      invariant todo <= keys
      invariant StrictlySorted(sorted)
      invariant forall k :: k in sorted <==> k in keys - todo
      invariant |sorted| + |todo| == |keys|
      decreases |todo|
    {
      var key :| key in todo;
      sorted := Insert(sorted, key);
      todo := todo - {key};
    }
  }

  /** The `if words[key] > threshold` filter over keys taken in order. */
  function AboveThreshold(keys: seq<string>, words: FreqMap, threshold: nat): (r: seq<string>)
    ensures forall k :: k in r <==> k in keys && Count(words, k) > threshold
    ensures StrictlySorted(keys) ==> StrictlySorted(r)
  {
    if |keys| == 0 then []
    else
      var rest := AboveThreshold(keys[1..], words, threshold);
      assert StrictlySorted(keys) ==> forall j | 0 <= j < |rest| :: Less(keys[0], rest[j]) by {
        if StrictlySorted(keys) {
          forall j | 0 <= j < |rest| ensures Less(keys[0], rest[j]) {
            assert rest[j] in rest;
            var k :| 0 <= k < |keys[1..]| && keys[1..][k] == rest[j];
            assert keys[k + 1] == rest[j];
          }
        }
      }
      if Count(words, keys[0]) > threshold then [keys[0]] + rest else rest
  }

  /** The report: exactly the keys whose count is greater than the
      threshold, in strictly ascending order. */
  method Report(words: FreqMap, threshold: nat) returns (lines: seq<string>)
    ensures StrictlySorted(lines)
    ensures forall k :: k in lines <==> k in words && words[k] > threshold
  {
    var keys := SortKeys(words.Keys);
    lines := AboveThreshold(keys, words, threshold);
  }

  /** Any two sequences meeting the contract of `Report` are equal, so the
      contract fixes the report completely. */
  lemma ReportIsDetermined(words: FreqMap, threshold: nat, a: seq<string>, b: seq<string>)
    requires StrictlySorted(a) && StrictlySorted(b)
    requires forall k :: k in a <==> k in words && words[k] > threshold
    requires forall k :: k in b <==> k in words && words[k] > threshold
    ensures a == b
  {
    StrictlySortedUnique(a, b);
  }

  /** The main block of countwords.py on the texts of the files: reduce
      the per-file maps, then report the tokens counted more than 2000
      times across the whole corpus, in ascending order. With no files,
      `reduce` raises before anything is reported. */
  method FrequentWords(texts: seq<string>) returns (r: Result<seq<string>, ReduceError>)
    ensures r.Failure? <==> |texts| == 0
    ensures r.Success? ==> StrictlySorted(r.value)
    ensures r.Success? ==> forall t ::
      t in r.value <==> Count(CountWords(JoinWith(texts, ' ')), t) > Threshold
  {
    var totals := WordTotals(texts);
    if totals.Failure? {
      return Failure(totals.error);
    }
    WordTotalsIsCorpusCount(texts);
    var lines := Report(totals.value, Threshold);
    return Success(lines);
  }
}
