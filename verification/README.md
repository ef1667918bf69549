# Word and line counting: a Dafny model

This project models the pure core of two small text-statistics scripts.

- **countwords.py** counts words across a directory of plays. `count_words` splits a file's text on whitespace and lower-cases each word. It keeps the first match of `[a-z\-]+` in the word and tallies those tokens into a dictionary. `reduce_dicts` merges two such dictionaries by adding counts key by key. The main block computes the per-file dictionaries in a process pool and then folds `reduce_dicts` over them, in file order. It then prints, in sorted order, every token counted more than 2000 times.
- **countlines.py** counts the lines of each file as `len(text.split("\n"))`. It adds the counts up with `reduce(add, ...)`.

The model works on the files' texts, given as strings, and never on paths. Tokens are strings and frequency maps are `map<string, nat>`. Everything is a pure function except five methods: `CopyDict` and `ReduceDicts` (the copy and add loops of `reduce_dicts`), `SortKeys` (the sort behind the report), `Report.Report`, and `Report.FrequentWords` (the main block of countwords.py).

Modules, in dependency order:

- `Wrappers` holds `Option` and `Result`.
- `Text` holds ASCII character classes, `str.lower()`, `str.split()` and `sep.join`.
- `Tokenizer` holds the per-word regular-expression search.
- `Fold` holds `functools.reduce` without an initial value, plus its regrouping and permutation laws for associative and commutative combiners.
- `FrequencyMap` holds `reduce_dicts` and its algebra.
- `WordCount` holds `count_words` and the global reduction.
- `Lex` holds Python's string order.
- `Report` holds the sorted threshold report and the main block of countwords.py.
- `LineCount` holds countlines.py.

Two behaviours of the code are worth stating up front:

- With no files, `functools.reduce` with no initial value raises `TypeError` (countwords.py:70, countlines.py:32). So `WordTotals`, `TotalLines` and `FrequentWords` return `Failure(EmptyWithoutInitial)` for an empty sequence of texts, not an empty map or 0.
- The token is the first maximal run of `[a-z-]` in the lower-cased word, not the longest: for `ab.cdef` it is `ab`.

## Model

| member | source | states |
|---|---|---|
| Text.Words | countwords.py:23 | `text.split()` produces only non-empty words that contain no whitespace |
| Text.WordsKeepAllNonSpace | countwords.py:23 | splitting loses exactly the whitespace: the words, written back to back, are the text with every separator removed |
| Text.WordsAppend | countwords.py:23 | splitting is additive over whitespace: the split of `a + c + b` is the split of `a` followed by the split of `b`, for any whitespace `c` |
| Text.WordsJoin | countwords.py:23 | round trip: joining whitespace-free words with a space and splitting again gives back the same words |
| Text.LowerStringFixed | countwords.py:28 | `word.lower()` leaves a word unchanged exactly when it has no character in `A`-`Z` |
| Text.LowerStringIdempotent | countwords.py:28 | lower-casing an already lower-cased word changes nothing |
| Tokenizer.FirstRun | countwords.py:29 | the regular-expression search finds nothing exactly when no character is in `[a-z-]`; otherwise its span is the leftmost maximal run of such characters |
| Tokenizer.FirstRunUnique | countwords.py:29 | there is only one leftmost maximal run, so the match is fully determined |
| Tokenizer.TokenSpec | countwords.py:28-32 | a word yields no token exactly when no character of the lower-cased word is in `[a-z-]`; otherwise the token is non-empty, uses only `[a-z-]`, and is a leftmost maximal run of the lower-cased word |
| Tokenizer.TokenIsFirstRun | countwords.py:28-32 | conversely, any leftmost maximal run of the lower-cased word is the token, so the contract of `TokenSpec` determines the token |
| Tokenizer.TokenOfToken | countwords.py:28-32 | tokenising is idempotent: a token is its own token |
| Tokenizer.TokenOfHelloComma | countwords.py:28-32 | `Hello,` yields `hello` |
| Tokenizer.TokenOfFoo123Bar | countwords.py:29-32 | only the first run counts: `foo123bar` yields `foo` |
| Tokenizer.TokenOfTheVariants | countwords.py:28-32 | `The` and `the.` both yield `the` |
| Tokenizer.TokenOfNumber | countwords.py:29-31 | `3.14` yields no token |
| WordCount.TokensAreTokens | countwords.py:28-32 | every token a run of words contributes is non-empty and uses only `[a-z-]` |
| WordCount.TallyCounts | countwords.py:25-37 | after the tallying loop, each key's count is its number of occurrences among the tokens, and a key is present exactly when it occurs |
| WordCount.TallyCountsWords | countwords.py:25-37 | each count is the number of whitespace-delimited words whose token is that key |
| WordCount.TallyIgnoresTokenless | countwords.py:25-37 | a word without a token, anywhere among the words, leaves the map unchanged: the tally with it equals the tally without it |
| WordCount.TallyAppend | countwords.py:25-37 | tallying two runs of words one after the other gives the merge of their two tallies |
| WordCount.CountWords | countwords.py:20-39 | `count_words` maps exactly the tokens of the text, each to its number of occurrences; every key is a token and every count is at least 1 |
| WordCount.CountWordsJoin | countwords.py:23-39 | counting two texts joined by whitespace gives the merge of their two counts |
| WordCount.CountWordsExample | countwords.py:23-39 | `the The the.` counts `the` three times and nothing else |
| FrequencyMap.CopyDict | countwords.py:51-54 | the copy loop produces a map equal to `dict1` |
| FrequencyMap.ReduceDicts | countwords.py:42-62 | `reduce_dicts` has the union of the two key sets, and each key's count is `dict1[k] + dict2[k]`, with a missing key counting 0 |
| FrequencyMap.MergeCommutative | countwords.py:53-60 | the merge is commutative |
| FrequencyMap.MergeAssociative | countwords.py:53-60 | the merge is associative |
| FrequencyMap.MergeIdentity | countwords.py:51-60 | the empty map is a two-sided identity of the merge |
| FrequencyMap.MergePositive | countwords.py:53-60 | merging maps whose counts are all at least 1 gives such a map |
| FrequencyMap.PositiveEqual | countwords.py:34-37 | a frequency map with every count at least 1 is determined by its counts |
| FrequencyMap.MergeAllCounts | countwords.py:70 | folding the merge over the per-file maps gives, for each key, the sum of its counts over all files; the keys are those found in some file |
| Fold.Fold1Append | countwords.py:67-70 | with an associative combiner, reducing a concatenation combines the reductions of its two parts |
| Fold.Fold1Permutation | countwords.py:67-70 | with an associative and commutative combiner, every permutation of the inputs reduces to the same value |
| WordCount.WordTotals | countwords.py:67-70 | the global map fails exactly when there are no files; otherwise every count is at least 1 and each token's count is the sum of its per-file counts |
| WordCount.WordTotalsIsCorpusCount | countwords.py:67-70 | the global map is the word count of all files joined by spaces |
| WordCount.WordTotalsOrderIndependent | countwords.py:67-70 | reducing the per-file maps in any other order would give the same global map; the merge's algebra guarantees this, while the script itself reduces in file order |
| WordCount.WordTotalsChunked | countwords.py:67-70 | reducing a prefix and a suffix of the files separately and then merging the two results would give the same global map |
| WordCount.CatFileCount | countwords.py:20-39 | the file `cat cat dog` counts `cat` twice and `dog` once |
| WordCount.DogFileCount | countwords.py:20-39 | the file `dog dog dog` counts `dog` three times |
| WordCount.WordTotalsOfTwo | countwords.py:67-70 | two files reduce to the merge of their two maps |
| WordCount.WordTotalsExample | countwords.py:67-70 | the files `cat cat dog` and `dog dog dog` give `cat` 2 and `dog` 4 |
| Lex.LessIrreflexive | countwords.py:72 | no string sorts before itself |
| Lex.LessTransitive | countwords.py:72 | the string order is transitive |
| Lex.LessConnected | countwords.py:72 | any two different strings are ordered one way or the other |
| Lex.StrictlySortedUnique | countwords.py:72 | two strictly ascending sequences with the same elements are equal |
| Report.SortKeys | countwords.py:72 | `sorted(words.keys())` holds every key exactly once, in strictly ascending order |
| Report.AboveThreshold | countwords.py:72-73 | the filter keeps exactly the keys whose count exceeds the threshold and preserves ascending order |
| Report.Report | countwords.py:72-74 | the report holds exactly the keys whose count is strictly greater than the threshold, in strictly ascending order |
| Report.ReportIsDetermined | countwords.py:72-74 | the report's contract allows only one sequence |
| Report.FrequentWords | countwords.py:64-74 | with no files the run fails; otherwise it reports, in ascending order, exactly the tokens counted more than 2000 times in the whole corpus |
| LineCount.SplitOn | countlines.py:11 | `text.split("\n")` yields at least one piece, and no piece contains a line feed |
| LineCount.SplitOnCount | countlines.py:11 | there is one more piece than there are line feeds |
| LineCount.SplitThenJoin | countlines.py:11 | round trip: joining the pieces with line feeds rebuilds the text |
| LineCount.JoinThenSplit | countlines.py:11 | round trip: splitting a join of pieces without line feeds gives the pieces back |
| LineCount.SplitAppend | countlines.py:11 | splitting is additive over a line feed |
| LineCount.CountLines | countlines.py:11-12 | `count_lines_in_file` is the number of line feeds plus 1, so never less than 1 |
| LineCount.CountLinesJoin | countlines.py:11-12 | the line count is additive: `count(a + "\n" + b) == count(a) + count(b)` |
| LineCount.CountLinesExamples | countlines.py:11-12 | `a\nb\nc` and `a\nb\n` both have 3 lines, and the empty text has 1 |
| LineCount.FoldAddIsSum | countlines.py:28-32 | `reduce(add, counts)` on a non-empty sequence is the sum of the counts |
| LineCount.TotalLines | countlines.py:19-32 | the total fails exactly when there are no files, and otherwise is the sum of the per-file counts |
| LineCount.SumLineCountsIsJoined | countlines.py:11-12 | the per-file line counts of several texts add up to the line count of the texts joined by line feeds |
| LineCount.TotalLinesIsJoinedCount | countlines.py:19-32 | the total is the line count of all files joined by line feeds |

## Left out

- File discovery and reading are filesystem I/O, so the model takes the texts as parameters. This covers `Path("shakespeare").glob("*")`, `sorted` over paths and `read_text` (countwords.py:22, 65; countlines.py:10, 15). A file that cannot be read is therefore not modelled.
- The process pool is concurrency plumbing: `ProcessPoolExecutor` and `pool.map(..., chunksize=5)` (countwords.py:67-68). It is modelled as a plain map over the texts (`WordCount.PerFile`). `pool.map` yields its results in input order, and `reduce` runs sequentially in the parent process, so the script always reduces in file order. `WordTotalsOrderIndependent` and `WordTotalsChunked` show that another order or grouping would not change the result.
- Printing and formatting are output glue: the f-strings and `%` output (countwords.py:74; countlines.py:22-23, 34). `Report.Report` yields the keys it would print. Each key is printed beside its count in the map, and the text of the line is not modelled.
- Unicode behaviour is outside the model, which is ASCII only. `Text.Lower` changes only `A`-`Z`. Python's Unicode `str.lower()` can turn some non-ASCII characters into ASCII letters (the Kelvin sign becomes `k`); the model does not. `Text.IsSpace` is the ASCII whitespace of `str.split()`: space, 9-13 and 28-31. The non-ASCII Unicode separators are not modelled.
- `reduce_dicts` leaving its arguments unchanged and returning a fresh map needs no contract here. Dafny maps are immutable values, so no operation in the model can alias or modify its inputs.
- `Report.Report` takes the threshold as a parameter so the report can be stated for any threshold. The script's literal value is `Report.Threshold` (2000), and `Report.FrequentWords` uses it.
- Counts are unbounded integers, like Python's, so no overflow is modelled.

