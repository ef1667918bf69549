/** Character classes and whitespace splitting, restricted to ASCII.

    The scripts call Python's `str.lower()` and `str.split()`. This module
    models both on ASCII text: `Lower` changes only `A`-`Z`, and `IsSpace`
    is the set of ASCII characters that `str.split()` treats as separators
    (space, tab, line feed, vertical tab, form feed, carriage return and
    the four information separators 0x1C-0x1F).
 */
module Text {

  /** A separator for Python's argument-less `str.split()`, on ASCII. */
  predicate IsSpace(c: char) {
    c == ' ' || 9 <= c as int <= 13 || 28 <= c as int <= 31
  }

  /** A member of the regular-expression class `[a-z\-]`. */
  predicate IsWordChar(c: char) {
    'a' <= c <= 'z' || c == '-'
  }

  /** ASCII lower-casing of one character. */
  function Lower(c: char): char {
    if 'A' <= c <= 'Z' then (c as int + 32) as char else c
  }

  /** `s.lower()`, character by character. */
  function LowerString(s: string): string {
    seq(|s|, i requires 0 <= i < |s| => Lower(s[i]))
  }

  /** A string is its own lower-case form exactly when it holds no
      character in `A`-`Z`. */
  lemma LowerStringFixed(s: string)
    ensures LowerString(s) == s <==> forall k | 0 <= k < |s| :: !('A' <= s[k] <= 'Z')
  {
    if LowerString(s) == s {
      forall k | 0 <= k < |s|
        ensures !('A' <= s[k] <= 'Z')
      {
        assert Lower(s[k]) == s[k];
      }
    }
  }

  /** Lower-casing twice is lower-casing once. */
  lemma LowerStringIdempotent(s: string)
    ensures LowerString(LowerString(s)) == LowerString(s)
  {
    var w := LowerString(s);
    assert forall k | 0 <= k < |w| :: !('A' <= w[k] <= 'Z');
    LowerStringFixed(w);
  }

  /** A whitespace-delimited word: non-empty and free of separators. */
  predicate IsWord(w: string) {
    |w| > 0 && forall k | 0 <= k < |w| :: !IsSpace(w[k])
  }

  /** Length of the longest separator-free prefix of `s`. */
  function WordEnd(s: string): (n: nat)
    ensures n <= |s|
    ensures forall k | 0 <= k < n :: !IsSpace(s[k])
    ensures n == |s| || IsSpace(s[n])
  {
    if |s| == 0 || IsSpace(s[0]) then 0 else 1 + WordEnd(s[1..])
  }

  /** `s.split()`: the maximal separator-free runs of `s`, left to right;
      leading, trailing and repeated separators produce no empty words. */
  function Words(s: string): (ws: seq<string>)
    ensures forall w | w in ws :: IsWord(w)
    decreases |s|
  {
    if |s| == 0 then []
    else if IsSpace(s[0]) then Words(s[1..])
    else
      var n := WordEnd(s);
      [s[..n]] + Words(s[n..])
  }

  /** `sep.join(parts)` for a one-character separator. */
  function JoinWith(parts: seq<string>, sep: char): string {
    if |parts| == 0 then []
    else if |parts| == 1 then parts[0]
    else parts[0] + [sep] + JoinWith(parts[1..], sep)
  }

  /** All characters of `s` that are not separators, in order. */
  function RemoveSpaces(s: string): string {
    if |s| == 0 then []
    else (if IsSpace(s[0]) then [] else [s[0]]) + RemoveSpaces(s[1..])
  }

  /** The words of a list, written back to back. */
  function Concat(ws: seq<string>): string {
    if |ws| == 0 then [] else ws[0] + Concat(ws[1..])
  }

  lemma {:induction false} RemoveSpacesPrefix(s: string, n: nat)
    requires n <= |s|
    requires forall k | 0 <= k < n :: !IsSpace(s[k])
    ensures RemoveSpaces(s) == s[..n] + RemoveSpaces(s[n..])
    decreases n
  {
    if n > 0 {
      RemoveSpacesPrefix(s[1..], n - 1);
      assert s[1..][..n - 1] == s[1..n];
      assert s[1..][n - 1..] == s[n..];
      assert s[..n] == [s[0]] + s[1..n];
    }
  }

  /** Splitting loses exactly the separators: the words, written back to
      back, are the text with every separator removed. */
  lemma {:induction false} WordsKeepAllNonSpace(s: string)
    ensures Concat(Words(s)) == RemoveSpaces(s)
    decreases |s|
  {
    if |s| == 0 {
    } else if IsSpace(s[0]) {
      WordsKeepAllNonSpace(s[1..]);
    } else {
      var n := WordEnd(s);
      WordsKeepAllNonSpace(s[n..]);
      RemoveSpacesPrefix(s, n);
      WordsOfHead(s);
      assert ([s[..n]] + Words(s[n..]))[1..] == Words(s[n..]);
    }
  }

  lemma {:induction false} WordEndAppend(a: string, c: char, b: string)
    requires IsSpace(c)
    ensures WordEnd(a + [c] + b) == WordEnd(a)
    decreases |a|
  {
    if |a| > 0 && !IsSpace(a[0]) {
      WordEndAppend(a[1..], c, b);
      assert (a + [c] + b)[1..] == a[1..] + [c] + b;
    }
  }

  /** Splitting is additive over a separator: `(a + c + b).split()` is
      `a.split() + b.split()` whenever `c` is whitespace. */
  lemma {:induction false} WordsAppend(a: string, c: char, b: string)
    requires IsSpace(c)
    ensures Words(a + [c] + b) == Words(a) + Words(b)
    decreases |a|
  {
    var s := a + [c] + b;
    if |a| == 0 {
      assert s == [c] + b;
      assert s[1..] == b;
    } else if IsSpace(a[0]) {
      assert s[1..] == a[1..] + [c] + b;
      WordsAppend(a[1..], c, b);
    } else {
      var n := WordEnd(a);
      WordsAppend(a[n..], c, b);
      WordsAppendWordStep(a, c, b);
    }
  }

  lemma WordsAppendWordStep(a: string, c: char, b: string)
    requires IsSpace(c)
    requires |a| > 0 && !IsSpace(a[0])
    requires Words(a[WordEnd(a)..] + [c] + b) == Words(a[WordEnd(a)..]) + Words(b)
    ensures Words(a + [c] + b) == Words(a) + Words(b)
  {
    var s, n := a + [c] + b, WordEnd(a);
    assert s[0] == a[0];
    WordEndAppend(a, c, b);
    WordsOfHead(s);
    WordsOfHead(a);
    assert s[..n] == a[..n] && s[n..] == a[n..] + [c] + b by {
      assert |s| == |a| + 1 + |b|;
    }
    var head, rest := [a[..n]], Words(a[n..]);
    assert head + (rest + Words(b)) == (head + rest) + Words(b);
  }

  lemma WordsOfHead(s: string)
    requires |s| > 0 && !IsSpace(s[0])
    ensures Words(s) == [s[..WordEnd(s)]] + Words(s[WordEnd(s)..])
  {
  }

  lemma WordsOfWord(w: string)
    requires IsWord(w)
    ensures Words(w) == [w]
  {
    var n := WordEnd(w);
    assert n == |w|;
    assert w[..n] == w;
    assert w[n..] == [];
    assert Words(w[n..]) == [];
  }

  /** Round trip: joining words with a space and splitting again gives the
      same words back. */
  lemma {:induction false} WordsJoin(ws: seq<string>)
    requires forall w | w in ws :: IsWord(w)
    ensures Words(JoinWith(ws, ' ')) == ws
    decreases |ws|
  {
    if |ws| == 0 {
    } else if |ws| == 1 {
      WordsOfWord(ws[0]);
    } else {
      WordsJoin(ws[1..]);
      WordsAppend(ws[0], ' ', JoinWith(ws[1..], ' '));
      WordsOfWord(ws[0]);
    }
  }
}
