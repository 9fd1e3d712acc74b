# Positional bigram counter

A model of `main.py`, a script that reads a list of English words and counts
every two-character slice ("bigram") at every position of every word. It
then writes one CSV row per distinct (position, bigram) key with the number of
times that key occurred.

The model has three modules:

- `BigramKeys` (`bigram_keys.dfy`): the `Bigram` class, used as the
  dictionary key. Its equality, inequality and hash are taken over the pair
  of its two fields.
- `Analysis` (`analysis.dfy`): the counting pass of `generate_bigram_analysis`.
  - Its nested loops are the method `CountBigrams`.
  - That method is proved equal to a fold of single insertions
    (`Tally`) over the keys the loops build, in the order they build them
    (`Scan`, made of one `Extract` per word).
  - The dictionary is a value `Dict(counts, order)`: a map from key to
    count, plus the keys in first-insertion order. That order is the one
    Python dictionaries iterate in.
- `Report` (`report.dfy`): `export` as the method `Export`. It returns either
  `NothingToExport` or the rows it would write. `GenerateBigramAnalysis`
  composes counting and export.

**The constructor arguments are swapped.** The constructor is declared as
`__init__(self, bigram, position)` but is called as `Bigram(n + 1, text)`. So
the field named `bigram` holds the 1-based position, and the field named
`position` holds the two-character text. The model keeps the source's field
names and stores what the program actually stores in them:
`Bigram(bigram: int, position: string)`.

Counting is unaffected, because equality covers both fields. The report
shows the swap, though: the column headed "bigram" holds positions, and the
column headed "position" holds the texts (`HeaderColumnsSwapped`).

The input word list is a parameter (`seq<string>`). The output is the
sequence of rows, each a sequence of cells.

`main.py` keeps one count per (position, text) key. It has no per-text
totals and no percentage column. It writes the header
`bigram,position,frequency` and does not catch an exception from `open`
(main.py:51).

## Model

| member | source | states |
|---|---|---|
| BigramKeys.Eq | main.py:28-29 | `__eq__`, which compares the (bigram, position) pairs, holds exactly when the keys are equal as Dafny values, so the datatype can key a map |
| BigramKeys.Ne | main.py:31-32 | `__ne__` is the negation of `__eq__`, so it holds exactly when the keys differ |
| BigramKeys.HashAgreesWithEq | main.py:25-29 | equal keys hash the same tuple, and keys hashing the same tuple are equal |
| Analysis.InsertChangesOneEntry | main.py:72-75 | one occurrence sets its key's count to the old count (0 if absent) plus 1; every other key and count is unchanged; a new key joins the end of the iteration order and a present key keeps its place |
| Analysis.InsertValid | main.py:72-75 | inserting keeps every key listed exactly once in the iteration order |
| Analysis.ExtractAt | main.py:69-71 | the key built at offset n of a word holds n + 1 in the `bigram` field and the slice `word[n:n+2]` in the `position` field |
| Analysis.Extract | main.py:69 | a word of length L >= 2 yields L - 1 keys; a shorter word yields none |
| Analysis.ExtractMember | main.py:69-71 | a key comes from a word exactly when its integer field p lies in 1 .. L - 1 and its text field is the slice of the word starting at offset p - 1 |
| Analysis.Scan | main.py:67-71 | the number of keys the two loops build is the sum over the words of max(L - 1, 0) |
| Analysis.ScanMember | main.py:67-71 | a key is built by the loops exactly when some word yields it |
| Analysis.CountBigrams | main.py:64-75 | the dictionary the loops leave lists each key once, and equals inserting every built key in build order into an empty dictionary |
| Analysis.TallyValid | main.py:64-75 | the dictionary built by counting lists every key exactly once |
| Analysis.TallyCounts | main.py:67-75 | a key is stored exactly when some (word, offset) pair built it, and its count is the number of such pairs, so at least 1 |
| Analysis.TallyEmpty | main.py:64-75 | the dictionary is empty exactly when no key was built |
| Analysis.TallyOrder | main.py:72-73 | the iteration order holds exactly the built keys, sorted by the index at which each was first built |
| Analysis.TallyTotal | main.py:72-75 | the counts of the stored keys add up to the number of keys built |
| Analysis.SumOfCounts | main.py:67-75 | the sum of all counts is the sum over the words of max(L - 1, 0) |
| Analysis.StoredKeyShape | main.py:18-20 | every stored key has an integer of at least 1 in its `bigram` field and, in its `position` field, the two-character slice at that 1-based position of some word |
| Analysis.NothingScanned | main.py:69 | no key is built exactly when every word is shorter than two characters |
| Analysis.SingleWord | main.py:64-75 | counting a single word of length L stores max(L - 1, 0) keys, each with count 1, in offset order |
| Analysis.TallyOfDistinct | main.py:72-73 | counting pairwise different keys stores each of them once, with count 1, in the order given |
| Report.Export | main.py:41-57 | an empty dictionary writes nothing; otherwise the header comes first, followed by one row `[key.bigram, key.position, count]` per key in iteration order, so every key has exactly one row and no two data rows are equal |
| Report.GenerateBigramAnalysis | main.py:60-77 | nothing is written exactly when every word is shorter than two characters; otherwise the data rows list the built keys in first-occurrence order, each with the number of times it was built |
| Report.HeaderColumnsSwapped | main.py:53-57 | the column headed "bigram" holds an integer of at least 1, and the column headed "position" holds a two-character text |
| Report.ThreeCharacterKeys | main.py:69-71 | a three-character word yields the keys (1, its first two characters) and (2, its last two) |
| Report.CatScenario | main.py:64-75 | for the words ["cat"] the keys are (1, "ca") and (2, "at"), each counted once, in that order |
| Report.CatBatScenario | main.py:64-75 | for the words ["cat", "bat"], (2, "at") is counted twice and (1, "ca") and (1, "ba") once each, in the order ca, at, ba |

## Left out

- Reading the word list with `pd.read_csv` and coercing each cell with `str` (main.py:65-68): this is a foreign library call. The words are a parameter.
- Opening `results.csv`, the `csv.writer` formatting and the file name (main.py:50-52): this is file I/O. `Export` returns the rows that would be written, and integers stay numeric cells rather than decimal text.
- Logging setup and the "nothing to export" notice (main.py:13-14, 48): these have no effect on the result.
- `print_results` (main.py:35-38): debug console output.
- The value of Python's `hash` (main.py:26): only the tuple it hashes is modelled (`HashKey`), because Dafny's datatype equality serves as the dictionary's key equality.
- `get_start_letter` (main.py:22-23): it is never called. With the swapped arguments it would index an integer, so it has no behaviour to model.
