/** `count_words` after the file read, and the reduction of the per-file
    maps in the main block of countwords.py.

    A file's text is split on whitespace, each word is turned into at most
    one token, and the tokens are tallied. The script runs `count_words`
    on every file in a process pool, which hands the results back in file
    order, and then folds `reduce_dicts` over them sequentially. Here the
    pool is a plain map over the sequence of texts.
    `WordTotalsOrderIndependent` and `WordTotalsChunked` show that reducing
    in another order or grouping would give the same global map.
 */
module WordCount {
  import opened Wrappers
  import opened Text
  import opened Tokenizer
  import opened Fold
  import opened FrequencyMap

  /** The tokens a sequence of words contributes, in order; words without
      a token contribute nothing. */
  function Tokens(words: seq<string>): seq<string> {
    if |words| == 0 then []
    else
      var init := Tokens(words[..|words| - 1]);
      match Token(words[|words| - 1])
      case None => init
      case Some(t) => init + [t]
  }

  /** Every element of `Tokens(words)` is a token. */
  lemma {:induction false} TokensAreTokens(words: seq<string>)
    ensures forall t | t in Tokens(words) :: IsToken(t)
    decreases |words|
  {
    if |words| > 0 {
      TokensAreTokens(words[..|words| - 1]);
      TokenSpec(words[|words| - 1]);
    }
  }

  /** One step of the tallying loop: increase the count of `t`, or store 1
      if `t` is new. */
  function Bump(m: FreqMap, t: string): FreqMap {
    if t in m then m[t := m[t] + 1] else m[t := 1]
  }

  /** The tallying loop of `count_words` over a sequence of words. */
  function Tally(words: seq<string>): FreqMap {
    if |words| == 0 then map[]
    else
      var m := Tally(words[..|words| - 1]);
      match Token(words[|words| - 1])
      case None => m
      case Some(t) => Bump(m, t)
  }

  /** After the tallying loop each key's count is the number of times it
      occurs among the tokens, and a key is present exactly when it
      occurs. */
  lemma {:induction false} TallyCounts(words: seq<string>)
    ensures forall t :: Count(Tally(words), t) == multiset(Tokens(words))[t]
    ensures forall t :: t in Tally(words) <==> t in Tokens(words)
    decreases |words|
  {
    if |words| > 0 {
      TallyCounts(words[..|words| - 1]);
    }
  }

  /** `count_words(file)` on the file's text: a map from every token of the
      text to its number of occurrences, all counts at least 1. */
  function CountWords(text: string): (m: FreqMap)
    ensures Positive(m)
    ensures forall t | t in m :: IsToken(t)
    ensures forall t :: Count(m, t) == multiset(Tokens(Words(text)))[t]
  {
    TallyCounts(Words(text));
    TallyPositive(Words(text));
    TokensAreTokens(Words(text));
    Tally(Words(text))
  }

  lemma TallyPositive(words: seq<string>)
    ensures Positive(Tally(words))
  {
    TallyCounts(words);
    var m := Tally(words);
    forall t | t in m
      ensures m[t] >= 1
    {
      assert Count(m, t) == multiset(Tokens(words))[t];
      assert t in multiset(Tokens(words));
    }
  }

  /** The positions of the words whose token is `t`. */
  ghost function Producing(words: seq<string>, t: string): set<nat> {
    set i: nat | i < |words| && Token(words[i]) == Some(t)
  }

  /** Each count is the number of words whose token is that key. */
  lemma {:induction false} TallyCountsWords(words: seq<string>, t: string)
    ensures Count(Tally(words), t) == |Producing(words, t)|
    decreases |words|
  {
    if |words| > 0 {
      TallyCountsWords(words[..|words| - 1], t);
      TallyStep(words, t);
      ProducingStep(words, t);
    }
  }

  lemma TallyStep(words: seq<string>, t: string)
    requires |words| > 0
    ensures Count(Tally(words), t) ==
      Count(Tally(words[..|words| - 1]), t) + (if Token(words[|words| - 1]) == Some(t) then 1 else 0)
  {
  }

  lemma ProducingStep(words: seq<string>, t: string)
    requires |words| > 0
    ensures |Producing(words, t)| ==
      |Producing(words[..|words| - 1], t)| + (if Token(words[|words| - 1]) == Some(t) then 1 else 0)
  {
    var n := |words|;
    var p, q := Producing(words, t), Producing(words[..n - 1], t);
    var last: set<nat> := if Token(words[n - 1]) == Some(t) then {n - 1} else {};
    forall i: nat
      ensures i in p <==> i in q + last
    {
      ProducingMember(words, t, i);
    }
    assert p == q + last;
    assert q !! last;
  }

  lemma ProducingMember(words: seq<string>, t: string, i: nat)
    requires |words| > 0
    ensures i in Producing(words, t) <==>
      i in Producing(words[..|words| - 1], t) || (i == |words| - 1 && Token(words[i]) == Some(t))
  {
    if i < |words| - 1 {
      assert words[i] == words[..|words| - 1][i];
    }
  }

  lemma TallyTokenlessLast(words: seq<string>, w: string)
    requires Token(w).None?
    ensures Tally(words + [w]) == Tally(words)
  {
    assert (words + [w])[..|words|] == words;
  }

  /** A word without a token, wherever it stands among the words, leaves
      the tally unchanged: dropping it gives the same map. */
  lemma TallyIgnoresTokenless(a: seq<string>, w: string, b: seq<string>)
    requires Token(w).None?
    ensures Tally(a + [w] + b) == Tally(a + b)
  {
    TallyAppend(a + [w], b);
    TallyAppend(a, b);
    TallyTokenlessLast(a, w);
  }

  lemma TokensSnoc(ws: seq<string>, w: string)
    ensures Tokens(ws + [w]) == Tokens(ws) + Tokens([w])
  {
    assert (ws + [w])[..|ws|] == ws;
    assert [w][..0] == [];
  }

  lemma {:induction false} TokensAppend(a: seq<string>, b: seq<string>)
    ensures Tokens(a + b) == Tokens(a) + Tokens(b)
    decreases |b|
  {
    if |b| == 0 {
      assert a + b == a;
    } else {
      var b', w := b[..|b| - 1], b[|b| - 1];
      assert b == b' + [w];
      assert a + b == (a + b') + [w];
      TokensAppend(a, b');
      TokensSnoc(a + b', w);
      TokensSnoc(b', w);
    }
  }

  /** Tallying two runs of words one after the other is merging their
      tallies. */
  lemma TallyAppend(a: seq<string>, b: seq<string>)
    ensures Tally(a + b) == Merge(Tally(a), Tally(b))
  {
    TokensAppend(a, b);
    TallyCounts(a + b);
    TallyCounts(a);
    TallyCounts(b);
    var m, ma, mb := Tally(a + b), Tally(a), Tally(b);
    forall t
      ensures t in m <==> t in ma || t in mb
      ensures t in m ==> m[t] == Count(ma, t) + Count(mb, t)
    {
      assert Count(m, t) == multiset(Tokens(a))[t] + multiset(Tokens(b))[t];
    }
    MergeEqual(ma, mb, m);
  }

  /** Counting the words of two texts joined by whitespace is merging the
      two counts. */
  lemma CountWordsJoin(a: string, c: char, b: string)
    requires IsSpace(c)
    ensures CountWords(a + [c] + b) == Merge(CountWords(a), CountWords(b))
  {
    WordsAppend(a, c, b);
    TallyAppend(Words(a), Words(b));
  }

  /** `pool.map(count_words, files)`: the frequency map of each file, in
      file order. */
  function PerFile(texts: seq<string>): (ms: seq<FreqMap>)
    ensures |ms| == |texts|
  {
    seq(|texts|, i requires 0 <= i < |texts| => CountWords(texts[i]))
  }

  /** `reduce(reduce_dicts, results)`: the global frequency map, or the
      `TypeError` that `reduce` raises when there are no files. Each
      token's global count is the sum of its per-file counts. */
  function WordTotals(texts: seq<string>): (r: Result<FreqMap, ReduceError>)
    ensures r.Failure? <==> |texts| == 0
    ensures r.Success? ==> Positive(r.value)
    ensures r.Success? ==> forall t :: Count(r.value, t) == SumCount(PerFile(texts), t)
  {
    var ms := PerFile(texts);
    ReduceMergeFacts(ms);
    Reduce(Merge, ms)
  }

  lemma ReduceMergeFacts(ms: seq<FreqMap>)
    requires forall i | 0 <= i < |ms| :: Positive(ms[i])
    ensures |ms| > 0 ==> Positive(Fold1(Merge, ms))
    ensures |ms| > 0 ==> forall t :: Count(Fold1(Merge, ms), t) == SumCount(ms, t)
  {
    if |ms| > 0 {
      MergeAllPositive(ms);
      forall t
        ensures Count(Fold1(Merge, ms), t) == SumCount(ms, t)
      {
        MergeAllCounts(ms, t);
      }
    }
  }

  lemma PerFileCons(texts: seq<string>)
    requires |texts| > 0
    ensures PerFile(texts) == [CountWords(texts[0])] + PerFile(texts[1..])
  {
  }

  lemma {:induction false} FoldPerFileIsCorpusCount(texts: seq<string>)
    requires |texts| > 0
    ensures Fold1(Merge, PerFile(texts)) == CountWords(JoinWith(texts, ' '))
    decreases |texts|
  {
    if |texts| > 1 {
      var rest := texts[1..];
      FoldPerFileIsCorpusCount(rest);
      PerFileCons(texts);
      MergeIsAcCombiner();
      Fold1Cons(Merge, CountWords(texts[0]), PerFile(rest));
      CountWordsJoin(texts[0], ' ', JoinWith(rest, ' '));
    } else {
      assert PerFile(texts) == [CountWords(texts[0])];
    }
  }

  /** The global map is the word count of the whole corpus read as one
      text, the files separated by spaces. */
  lemma WordTotalsIsCorpusCount(texts: seq<string>)
    requires |texts| > 0
    ensures WordTotals(texts) == Success(CountWords(JoinWith(texts, ' ')))
  {
    FoldPerFileIsCorpusCount(texts);
  }

  /** Reducing the per-file maps in any other order would give the same
      global map: every rearrangement of them reduces to the same result. */
  lemma WordTotalsOrderIndependent(texts: seq<string>, results: seq<FreqMap>)
    requires multiset(results) == multiset(PerFile(texts))
    ensures Reduce(Merge, results) == WordTotals(texts)
  {
    assert |results| == |multiset(results)| == |texts|;
    if |texts| > 0 {
      MergeIsAcCombiner();
      Fold1Permutation(Merge, PerFile(texts), results);
    }
  }

  /** Reducing a prefix and a suffix of the files separately and merging
      the two results would also give the global map. */
  lemma WordTotalsChunked(a: seq<string>, b: seq<string>)
    requires |a| > 0 && |b| > 0
    ensures WordTotals(a + b) == Success(Merge(WordTotals(a).value, WordTotals(b).value))
  {
    assert PerFile(a + b) == PerFile(a) + PerFile(b);
    MergeIsAcCombiner();
    Fold1Append(Merge, PerFile(a), PerFile(b));
  }

  /** A run of words that are all tokens tokenises to itself. */
  lemma {:induction false} TokensOfTokens(ws: seq<string>)
    requires forall w | w in ws :: IsToken(w)
    ensures Tokens(ws) == ws
    decreases |ws|
  {
    if |ws| > 0 {
      var init := ws[..|ws| - 1];
      assert forall w | w in init :: w in ws;
      TokensOfTokens(init);
      TokenOfToken(ws[|ws| - 1]);
      assert init + [ws[|ws| - 1]] == ws;
    }
  }

  /** Counting a text made of tokens separated by spaces counts each
      token as often as it occurs. */
  lemma CountWordsOfTokens(ws: seq<string>)
    requires forall w | w in ws :: IsToken(w)
    ensures forall t :: Count(CountWords(JoinWith(ws, ' ')), t) == multiset(ws)[t]
  {
    forall w | w in ws
      ensures IsWord(w)
    {
      assert forall k | 0 <= k < |w| :: IsWordChar(w[k]);
    }
    WordsJoin(ws);
    TokensOfTokens(ws);
  }

  lemma ExampleWords()
    ensures Words("the The the.") == ["the", "The", "the."]
  {
    var ws := ["the", "The", "the."];
    assert JoinWith(ws, ' ') == "the The the.";
    assert IsWord("the") && IsWord("The") && IsWord("the.");
    WordsJoin(ws);
  }

  lemma ExampleTokens()
    ensures Tokens(["the", "The", "the."]) == ["the", "the", "the"]
  {
    var ws := ["the", "The", "the."];
    TokenOfToken("the");
    TokenOfTheVariants();
    assert ws[..2][..1] == [ws[0]];
    assert [ws[0]][..0] == [];
    assert Tokens(ws[..2][..1]) == ["the"];
    assert Tokens(ws[..2]) == ["the", "the"];
  }

  /** Case folding and punctuation stripping merge all three occurrences:
      the text `the The the.` counts `the` three times. */
  lemma CountWordsExample()
    ensures CountWords("the The the.") == map["the" := 3]
  {
    ExampleWords();
    ExampleTokens();
    var m := CountWords("the The the.");
    forall t
      ensures Count(m, t) == Count(map["the" := 3], t)
    {
      assert Count(m, t) == multiset(["the", "the", "the"])[t];
    }
    PositiveEqual(m, map["the" := 3]);
  }

  lemma CatWords()
    ensures Words("cat cat dog") == ["cat", "cat", "dog"]
  {
    var ws := ["cat", "cat", "dog"];
    assert JoinWith(ws, ' ') == "cat cat dog";
    assert IsWord("cat") && IsWord("dog");
    WordsJoin(ws);
  }

  lemma DogWords()
    ensures Words("dog dog dog") == ["dog", "dog", "dog"]
  {
    var ws := ["dog", "dog", "dog"];
    assert JoinWith(ws, ' ') == "dog dog dog";
    assert IsWord("dog");
    WordsJoin(ws);
  }

  lemma CatTally()
    ensures Tally(["cat", "cat", "dog"]) == map["cat" := 2, "dog" := 1]
  {
    var ws := ["cat", "cat", "dog"];
    TokenOfToken("cat");
    TokenOfToken("dog");
    var w1, w2 := ws[..1], ws[..2];
    assert w1[..0] == [] && w1[0] == "cat";
    assert w2[..1] == w1 && w2[1] == "cat";
    assert ws[..2] == w2 && ws[2] == "dog";
    assert Tally(w1) == map["cat" := 1];
    assert Tally(w2) == map["cat" := 2];
  }

  lemma DogTally()
    ensures Tally(["dog", "dog", "dog"]) == map["dog" := 3]
  {
    var ws := ["dog", "dog", "dog"];
    TokenOfToken("dog");
    var w1, w2 := ws[..1], ws[..2];
    assert w1[..0] == [] && w1[0] == "dog";
    assert w2[..1] == w1 && w2[1] == "dog";
    assert ws[..2] == w2 && ws[2] == "dog";
    assert Tally(w1) == map["dog" := 1];
    assert Tally(w2) == map["dog" := 2];
  }

  /** The frequency map of the file `cat cat dog`. */
  lemma CatFileCount()
    ensures CountWords("cat cat dog") == map["cat" := 2, "dog" := 1]
  {
    CatWords();
    CatTally();
  }

  /** The frequency map of the file `dog dog dog`. */
  lemma DogFileCount()
    ensures CountWords("dog dog dog") == map["dog" := 3]
  {
    DogWords();
    DogTally();
  }

  /** Two files reduce to the merge of their two maps. */
  lemma WordTotalsOfTwo(x: string, y: string)
    ensures WordTotals([x, y]) == Success(Merge(CountWords(x), CountWords(y)))
  {
    var ms := PerFile([x, y]);
    assert ms[0] == CountWords(x) && ms[1] == CountWords(y);
    assert ms[..1] == [ms[0]];
    assert Fold1(Merge, ms) == Merge(ms[0], ms[1]);
  }

  lemma MergeCatDog()
    ensures Merge(map["cat" := 2, "dog" := 1], map["dog" := 3]) == map["cat" := 2, "dog" := 4]
  {
    MergeEqual(map["cat" := 2, "dog" := 1], map["dog" := 3], map["cat" := 2, "dog" := 4]);
  }

  /** Two files, `cat cat dog` and `dog dog dog`, give `cat` 2 and `dog` 4. */
  lemma WordTotalsExample()
    ensures WordTotals(["cat cat dog", "dog dog dog"]) == Success(map["cat" := 2, "dog" := 4])
  {
    WordTotalsOfTwo("cat cat dog", "dog dog dog");
    CatFileCount();
    DogFileCount();
    MergeCatDog();
  }
}
