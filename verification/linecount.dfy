/** countlines.py without its file reads: `count_lines_in_file` is the
    number of pieces `text.split("\n")` produces, and the total is
    `reduce(add, counts)` over the per-file counts.
 */
module LineCount {
  import opened Wrappers
  import opened Text
  import opened Fold

  /** `s.split(sep)` for a one-character separator: the pieces between
      separators, including an empty piece before a leading separator,
      between two adjacent ones and after a trailing one. There is one
      more piece than there are separators, and no piece holds one. */
  function SplitOn(s: string, sep: char): (r: seq<string>)
    ensures |r| > 0
    ensures forall piece | piece in r :: sep !in piece
  {
    if |s| == 0 then [[]]
    else
      var rest := SplitOn(s[1..], sep);
      if s[0] == sep then [[]] + rest
      else [[s[0]] + rest[0]] + rest[1..]
  }

  /** There is one more piece than there are separators. */
  lemma {:induction false} SplitOnCount(s: string, sep: char)
    ensures |SplitOn(s, sep)| == multiset(s)[sep] + 1
    decreases |s|
  {
    if |s| > 0 {
      SplitOnCount(s[1..], sep);
      assert s == [s[0]] + s[1..];
    }
  }

  lemma JoinWithCons(c: char, parts: seq<string>, sep: char)
    requires |parts| > 0
    ensures JoinWith([[c] + parts[0]] + parts[1..], sep) == [c] + JoinWith(parts, sep)
  {
    var ps := [[c] + parts[0]] + parts[1..];
    assert ps[1..] == parts[1..];
  }

  /** Round trip: joining the pieces with the separator rebuilds the text. */
  lemma {:induction false} SplitThenJoin(s: string, sep: char)
    ensures JoinWith(SplitOn(s, sep), sep) == s
    decreases |s|
  {
    if |s| > 0 {
      var rest := SplitOn(s[1..], sep);
      SplitThenJoin(s[1..], sep);
      if s[0] == sep {
        assert ([[]] + rest)[1..] == rest;
        assert s == [sep] + s[1..];
      } else {
        JoinWithCons(s[0], rest, sep);
        assert s == [s[0]] + s[1..];
      }
    }
  }

  /** Splitting is additive over a separator. */
  lemma {:induction false} SplitAppend(a: string, sep: char, b: string)
    ensures SplitOn(a + [sep] + b, sep) == SplitOn(a, sep) + SplitOn(b, sep)
    decreases |a|
  {
    var s := a + [sep] + b;
    if |a| == 0 {
      assert s == [sep] + b;
      assert s[1..] == b;
    } else {
      assert s[1..] == a[1..] + [sep] + b;
      SplitAppend(a[1..], sep, b);
      SplitAppendStep(a, sep, b);
    }
  }

  lemma SplitAppendStep(a: string, sep: char, b: string)
    requires |a| > 0
    requires SplitOn((a + [sep] + b)[1..], sep) == SplitOn(a[1..], sep) + SplitOn(b, sep)
    ensures SplitOn(a + [sep] + b, sep) == SplitOn(a, sep) + SplitOn(b, sep)
  {
    var s := a + [sep] + b;
    assert s[0] == a[0];
    var ra, rb := SplitOn(a[1..], sep), SplitOn(b, sep);
    if a[0] == sep {
      assert [[]] + (ra + rb) == ([[]] + ra) + rb;
    } else {
      var head := [a[0]] + ra[0];
      assert (ra + rb)[0] == ra[0];
      assert (ra + rb)[1..] == ra[1..] + rb;
      assert [head] + (ra[1..] + rb) == ([head] + ra[1..]) + rb;
    }
  }

  lemma {:induction false} SplitOnPiece(piece: string, sep: char)
    requires sep !in piece
    ensures SplitOn(piece, sep) == [piece]
    decreases |piece|
  {
    if |piece| > 0 {
      assert sep !in piece[1..] by {
        assert forall x | x in piece[1..] :: x in piece;
      }
      SplitOnPiece(piece[1..], sep);
      assert piece == [piece[0]] + piece[1..];
    }
  }

  /** Round trip the other way: splitting a join of separator-free pieces
      gives the pieces back. */
  lemma {:induction false} JoinThenSplit(pieces: seq<string>, sep: char)
    requires |pieces| > 0
    requires forall piece | piece in pieces :: sep !in piece
    ensures SplitOn(JoinWith(pieces, sep), sep) == pieces
    decreases |pieces|
  {
    SplitOnPiece(pieces[0], sep);
    if |pieces| > 1 {
      JoinThenSplit(pieces[1..], sep);
      SplitAppend(pieces[0], sep, JoinWith(pieces[1..], sep));
      assert pieces == [pieces[0]] + pieces[1..];
    }
  }

  /** `count_lines_in_file` on the file's text: one more than the number
      of line feeds, so never less than 1. */
  function CountLines(text: string): (n: nat)
    ensures n == multiset(text)['\n'] + 1
    ensures n >= 1
  {
    SplitOnCount(text, '\n');
    |SplitOn(text, '\n')|
  }

  /** The line count is additive over a join at a line feed. */
  lemma CountLinesJoin(a: string, b: string)
    ensures CountLines(a + "\n" + b) == CountLines(a) + CountLines(b)
  {
    SplitAppend(a, '\n', b);
  }

  /** A missing or a present final line feed both give 3 lines, and the
      empty text has 1. */
  lemma CountLinesExamples()
    ensures CountLines("a\nb\nc") == 3
    ensures CountLines("a\nb\n") == 3
    ensures CountLines("") == 1
  {
    assert "a\nb\nc" == ['a', '\n', 'b', '\n', 'c'];
    assert "a\nb\n" == ['a', '\n', 'b', '\n'];
  }

  /** `add(x, y)`. */
  function Add(x: int, y: int): int {
    x + y
  }

  /** The sum of a sequence of integers. */
  function Sum(xs: seq<int>): int {
    if |xs| == 0 then 0 else xs[0] + Sum(xs[1..])
  }

  lemma {:induction false} SumSnoc(xs: seq<int>, x: int)
    ensures Sum(xs + [x]) == Sum(xs) + x
    decreases |xs|
  {
    if |xs| == 0 {
      assert xs + [x] == [x];
    } else {
      assert (xs + [x])[1..] == xs[1..] + [x];
      SumSnoc(xs[1..], x);
    }
  }

  /** `reduce(add, counts)` on a non-empty sequence is its sum. */
  lemma {:induction false} FoldAddIsSum(xs: seq<int>)
    requires |xs| > 0
    ensures Fold1(Add, xs) == Sum(xs)
    decreases |xs|
  {
    if |xs| > 1 {
      var init := xs[..|xs| - 1];
      FoldAddIsSum(init);
      SumSnoc(init, xs[|xs| - 1]);
      assert init + [xs[|xs| - 1]] == xs;
    } else {
      assert xs[1..] == [];
    }
  }

  /** `list(map(count_lines_in_file, files))` on the files' texts. */
  function LineCounts(texts: seq<string>): (counts: seq<int>)
    ensures |counts| == |texts|
  {
    seq(|texts|, i requires 0 <= i < |texts| => CountLines(texts[i]))
  }

  /** `reduce(add, play_line_count)`: the sum of the per-file counts, or
      the `TypeError` that `reduce` raises when there are no files. */
  function TotalLines(texts: seq<string>): (r: Result<int, ReduceError>)
    ensures r.Failure? <==> |texts| == 0
    ensures r.Success? ==> r.value == Sum(LineCounts(texts))
  {
    var counts := LineCounts(texts);
    if |counts| == 0 then Reduce(Add, counts)
    else
      FoldAddIsSum(counts);
      Reduce(Add, counts)
  }

  lemma LineCountsTail(texts: seq<string>)
    requires |texts| > 0
    ensures LineCounts(texts)[0] == CountLines(texts[0])
    ensures LineCounts(texts)[1..] == LineCounts(texts[1..])
  {
  }

  lemma {:induction false} SumLineCountsIsJoined(texts: seq<string>)
    requires |texts| > 0
    ensures Sum(LineCounts(texts)) == CountLines(JoinWith(texts, '\n'))
    decreases |texts|
  {
    LineCountsTail(texts);
    if |texts| > 1 {
      var rest := texts[1..];
      SumLineCountsIsJoined(rest);
      CountLinesJoin(texts[0], JoinWith(rest, '\n'));
    }
  }

  /** The total is the line count of all files joined by line feeds: one
      more than the number of line feeds, per file. */
  lemma TotalLinesIsJoinedCount(texts: seq<string>)
    requires |texts| > 0
    ensures TotalLines(texts) == Success(CountLines(JoinWith(texts, '\n')))
  {
    SumLineCountsIsJoined(texts);
  }
}
