/** The per-word normalisation of `count_words`: lower-case the word, then
    keep the first match of the regular expression `[a-z\-]+`.

    Python's regular-expression search reports the leftmost position where
    the pattern matches, and the greedy `+` extends that match as far as
    it can, so the match is the leftmost maximal run of `[a-z-]` characters.
    Runs after the first one are ignored: `foo123bar` yields `foo`.
 */
module Tokenizer {
  import opened Wrappers
  import opened Text

  /** A token: a non-empty string drawn only from `[a-z-]`. */
  predicate IsToken(t: string) {
    |t| > 0 && forall k | 0 <= k < |t| :: IsWordChar(t[k])
  }

  /** `w[i..j]` is the leftmost maximal run of `[a-z-]` characters in `w`. */
  ghost predicate IsFirstRun(w: string, i: int, j: int) {
    && 0 <= i < j <= |w|
    && (forall k | i <= k < j :: IsWordChar(w[k]))
    && (forall k | 0 <= k < i :: !IsWordChar(w[k]))
    && (j == |w| || !IsWordChar(w[j]))
  }

  /** The first position at or after `i` that holds a `[a-z-]` character,
      or `|w|` if there is none. */
  function RunStart(w: string, i: nat): (r: nat)
    requires i <= |w|
    ensures i <= r <= |w|
    ensures forall k | i <= k < r :: !IsWordChar(w[k])
    ensures r == |w| || IsWordChar(w[r])
    decreases |w| - i
  {
    if i == |w| || IsWordChar(w[i]) then i else RunStart(w, i + 1)
  }

  /** The first position at or after `i` that does not hold a `[a-z-]`
      character, or `|w|` if there is none. */
  function RunEnd(w: string, i: nat): (r: nat)
    requires i <= |w|
    ensures i <= r <= |w|
    ensures forall k | i <= k < r :: IsWordChar(w[k])
    ensures r == |w| || !IsWordChar(w[r])
    decreases |w| - i
  {
    if i == |w| || !IsWordChar(w[i]) then i else RunEnd(w, i + 1)
  }

  /** `re.search(r"([a-z\-]+)", w)`: the span of the match, or `None`. */
  function FirstRun(w: string): (r: Option<(nat, nat)>)
    ensures r.None? <==> forall k | 0 <= k < |w| :: !IsWordChar(w[k])
    ensures r.Some? ==> IsFirstRun(w, r.value.0, r.value.1)
  {
    var i := RunStart(w, 0);
    if i == |w| then None else Some((i, RunEnd(w, i)))
  }

  /** There is only one leftmost maximal run, so the span `FirstRun`
      returns is the only one its contract admits. */
  lemma FirstRunUnique(w: string, i: int, j: int, i': int, j': int)
    requires IsFirstRun(w, i, j)
    requires IsFirstRun(w, i', j')
    ensures i == i' && j == j'
  {
    assert IsWordChar(w[i]) && IsWordChar(w[i']);
    if j < |w| {
      assert !IsWordChar(w[j]);
    }
    if j' < |w| {
      assert !IsWordChar(w[j']);
    }
  }

  /** The token a whitespace-delimited word contributes, if any: the
      first match of `[a-z\-]+` in the lower-cased word. */
  function Token(word: string): Option<string> {
    var w := LowerString(word);
    var span := FirstRun(w);
    if span.None? then None else Some(w[span.value.0..span.value.1])
  }

  /** A word yields no token exactly when none of its lower-cased
      characters is in `[a-z-]`; otherwise the token is a non-empty run of
      `[a-z-]` and is the leftmost maximal such run of the lower-cased word. */
  lemma TokenSpec(word: string)
    ensures Token(word).None? <==> forall k | 0 <= k < |word| :: !IsWordChar(Lower(word[k]))
    ensures Token(word).Some? ==> IsToken(Token(word).value)
    ensures Token(word).Some? ==>
      exists i, j :: IsFirstRun(LowerString(word), i, j) && Token(word).value == LowerString(word)[i..j]
  {
    var w := LowerString(word);
    assert forall k | 0 <= k < |word| :: w[k] == Lower(word[k]);
  }

  /** Conversely, any leftmost maximal run of the lower-cased word is the
      token: the contract of `Token` determines its result. */
  lemma TokenIsFirstRun(word: string, i: int, j: int)
    requires IsFirstRun(LowerString(word), i, j)
    ensures Token(word) == Some(LowerString(word)[i..j])
  {
    var w := LowerString(word);
    var span := FirstRun(w);
    assert IsWordChar(w[i]);
    FirstRunUnique(w, span.value.0, span.value.1, i, j);
  }

  /** Tokenising is idempotent: a token is its own token. */
  lemma TokenOfToken(t: string)
    requires IsToken(t)
    ensures Token(t) == Some(t)
  {
    var w := LowerString(t);
    LowerStringFixed(t);
    assert w == t;
    assert IsFirstRun(w, 0, |t|);
    TokenIsFirstRun(t, 0, |t|);
    assert w[0..|t|] == t;
  }

  /** Punctuation after the letters is cut off and the case is folded. */
  lemma TokenOfHelloComma()
    ensures Token("Hello,") == Some("hello")
  {
    var w := LowerString("Hello,");
    assert w == "hello,";
    assert IsFirstRun(w, 0, 5);
    TokenIsFirstRun("Hello,", 0, 5);
    assert w[0..5] == "hello";
  }

  /** Only the first run counts: `foo123bar` yields `foo`, not `bar`. */
  lemma TokenOfFoo123Bar()
    ensures Token("foo123bar") == Some("foo")
  {
    var w := LowerString("foo123bar");
    assert w == "foo123bar";
    assert IsFirstRun(w, 0, 3);
    TokenIsFirstRun("foo123bar", 0, 3);
    assert w[0..3] == "foo";
  }

  /** Case is folded and a trailing full stop is cut off: `The` and
      `the.` both yield `the`. */
  lemma TokenOfTheVariants()
    ensures Token("The") == Some("the")
    ensures Token("the.") == Some("the")
  {
    var w1, w2 := LowerString("The"), LowerString("the.");
    assert w1 == "the" && w2 == "the.";
    assert IsFirstRun(w1, 0, 3) && IsFirstRun(w2, 0, 3);
    TokenIsFirstRun("The", 0, 3);
    TokenIsFirstRun("the.", 0, 3);
    assert w1[0..3] == "the" && w2[0..3] == "the";
  }

  /** A word without letters or hyphens yields no token. */
  lemma TokenOfNumber()
    ensures Token("3.14") == None
  {
    var w := LowerString("3.14");
    assert w == "3.14";
  }
}
