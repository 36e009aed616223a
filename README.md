# Go Analog recommender core, modelled in Dafny

Go Analog recommends board games to a Steam user based on the video games
they play. This project models the part of the program that computes those
recommendations from values already loaded:

- **`normalize_ratings`** takes a list of (Steam id, minutes played). It
  keeps the games played for at least the cutoff, log-transforms the
  playtimes and, optionally, turns them into z-scores.
- **`recommend_boardgames`**, from the normalisation call onward:
  - it keeps the played games the local catalogue knows and renames them;
  - it cuts the item-similarity matrix down to those games;
  - it picks the board games that have enough similar neighbours;
  - it predicts their scores as z-scored dot products with the playtimes;
  - it explains each prediction by the most similar played games;
  - it gives every other board game a fallback score;
  - it sorts the rows, drops the excluded ones and numbers them `#1`, `#2`, ….
- The two table helpers of `src/go_analog_shared_functions.py` and
  `sim.py`: `find_similar_games` (one sorts the whole column, the other
  uses `nlargest`/`nsmallest`) and `rearrange_table` (`head`/`tail`, then
  sort, then select columns).

## Modules

- `numbers.dfy` (`Numbers`): float64 values as `Num = Real(v) | NaN`, mean,
  population standard deviation, z-scores and dot products.
- `seqs.dfy` (`Seqs`): the list comprehensions and pandas helpers:
  filtering, counting, `head`/`tail` with their negative-`n` behaviour,
  `zip`, and `dict(zip(...))`.
- `sorting.dfy` (`Sorting`): cells (number or text), the pandas sort order
  with NaN last, a stable sort that implements `sort_values`, and `TopN`
  for `nlargest`/`nsmallest`.
- `frames.dfy` (`Frames`): frames, the similarity matrix, label lookup with
  `KeyError` and `ValueError`, and the specification `Rearranged` that both `rearrange_table`
  implementations meet.
- `shared_functions.dfy` (`SharedFunctions`) and `sim.dfy` (`Sim`): the two
  helper files. `Sim.RearrangeTable` copies the kept rows into an array and
  sorts it in place, as its source sorts with `inplace=True`.
- `go_analog.dfy` (`GoAnalog`): `normalize_ratings`, the specification
  function `Recommendations` for `recommend_boardgames`, and the method
  `RecommendBoardgames`, whose two loops are `ExplainCandidates` and
  `AppendOutputs`.

## Inputs given as parameters

- **Steam profile:** the list returned by `get_games`, and its HTTP call,
  is a parameter.
- **Catalogues:** the id-to-name map of lines 67-68 and the board-game
  averages of lines 109-110 are parameters.
- **`ln` and `sqrt`:** both are function-typed parameters; nothing is
  assumed about them (see `Numbers.Standardizable` under Left out).

## Python behaviour the model reproduces

- **Zero spread:** a z-score over values with zero variance divides 0 by
  0. It gives NaN for every element, and NaN scores later fail
  the `Score > -100` filter.
- **The fallback score has one value.** The fallback of line 116 reads the
  loop variable `bg` left over from line 90.
  - That variable holds the last candidate, so every non-candidate row
    gets that candidate's average, or NaN when the name is not a key of
    the averages.
  - With `popular_games` and no candidate, reading it raises
    `UnboundLocalError`.
  - With no candidate, line 123 reads `based_on_games_you_play`, which was
    never bound. This raises `UnboundLocalError` once the matrix has a row.
- **Errors:** a played game missing from the matrix columns raises the
  `KeyError` of `ism[vg_names]`. The model returns this as an error value.
  `rearrange_table` sorts on a label the frame repeats with pandas'
  `ValueError`, and `df[columns_to_show]` keeps every column carrying a
  requested label.

## Model

| member | source | states |
|---|---|---|
| Numbers.ZScores | src/go_analog.py:38-41 | same length as the input; when the list is standardizable (non-empty, all real, positive variance) every entry is real and, scaled back by the standard deviation and shifted by the mean, gives the input value at its position; otherwise every entry is NaN |
| Numbers.ZScoresMonotone | src/go_analog.py:38-41 | standardizing keeps the order: one value is at most another exactly when its z-score is at most the other's |
| Numbers.ZScoresSumToZero | src/go_analog.py:39-41 | standardized values sum to zero |
| Numbers.Dot | src/go_analog.py:96 | a row times the playtime vector is a real number exactly when every playtime is real |
| Numbers.InnerScales | src/go_analog.py:96 | scaling a row scales its dot product by the same factor |
| Numbers.InnerAppend | src/go_analog.py:96 | the dot product of concatenations is the sum of the dot products |
| Numbers.CancellingWeights | src/go_analog.py:99 | opposite similarities to two equally played games cancel to a zero prediction, which is why a plain weighted average is not used |
| Seqs.Filter | src/go_analog.py:31 | a list comprehension with a condition: at most as long as the input, and its members are exactly the input members satisfying the condition |
| Seqs.FilterMultiset | src/go_analog.py:128 | filtering keeps each satisfying element exactly as often as the input has it, and no other element |
| Seqs.FilterAppend | src/go_analog.py:71-72 | filtering distributes over concatenation |
| Seqs.FilterIsSubsequence | src/go_analog.py:71-72 | a filtered list keeps its elements in input order |
| Seqs.CountPositions | src/go_analog.py:82 | a count is the number of positions that satisfy the condition |
| Seqs.FilterLength | src/go_analog.py:83 | the filtered list is as long as the count |
| Seqs.FilterLast | src/go_analog.py:90 | the last kept element is the last input element that satisfies the condition, and no later element does |
| Seqs.FilterSnoc | src/go_analog.py:90 | filtering a list with one more element appends that element exactly when it is kept |
| Seqs.Head | src/go_analog_shared_functions.py:52-53 | `head(n)` is a prefix, exactly `min(n, len)` long for a non-negative n |
| Seqs.Tail | src/go_analog_shared_functions.py:54-55 | `tail(n)` is a suffix, exactly `min(n, len)` long for a non-negative n |
| Seqs.ZipUnzip | src/go_analog.py:43 | splitting a zipped list into first and second components gives back the two lists that were zipped |
| Seqs.UnzipZip | src/go_analog.py:74-75 | zipping the first and second components of a list of pairs gives back the list |
| Seqs.ZipMap | src/go_analog.py:103 | `dict(zip(keys, values))` has exactly the listed keys |
| Seqs.ZipMapPrefix | src/go_analog.py:92 | adding one key-value pair to the lists adds it to the dict, overwriting an earlier value of that key |
| Seqs.ZipMapAt | src/go_analog.py:103 | with distinct keys, each key maps to the value at its own position |
| Seqs.DistinctOccursOnce | src/go_analog.py:83 | a list without repeats holds each element at most once |
| Seqs.TwiceOccurs | src/go_analog.py:83 | an element found at two positions occurs at least twice |
| Seqs.SubMultisetDistinctBy | src/go_analog_shared_functions.py:36 | part of a list with distinct labels, in any order, still has distinct labels |
| Sorting.LexLeTotal | src/go_analog_shared_functions.py:56 | string comparison is total |
| Sorting.LexLeTrans | src/go_analog_shared_functions.py:56 | string comparison is transitive |
| Sorting.InOrderTotal | src/go_analog_shared_functions.py:56 | the sort order on cells, NaN last in either direction, is total |
| Sorting.InOrderTrans | src/go_analog_shared_functions.py:56 | the sort order on cells is transitive |
| Sorting.Insert | src/go_analog_shared_functions.py:56 | inserting into a sorted list gives a sorted list with one more element |
| Sorting.SortBy | src/go_analog.py:127 | `sort_values` returns a sorted permutation of its input |
| Sorting.SubsequenceSorted | src/go_analog.py:128 | keeping some rows of a sorted list, in order, keeps it sorted |
| Sorting.SubsequenceElements | src/go_analog.py:128 | every element of a subsequence belongs to the list it was taken from |
| Sorting.TopN | src/go_analog.py:91 | `nlargest(n)`/`nsmallest(n)`: exactly `min(n, len)` elements (none for n ≤ 0), sorted, drawn from the input, each at least as extreme as every element left out |
| Sorting.SplitSorted | sim.py:51 | in a sorted list every element of a prefix comes before every element of the rest |
| Frames.IndexOf | src/go_analog_shared_functions.py:56 | a label's position holds it, and no earlier position does |
| Frames.Missing | src/go_analog.py:79 | the labels reported missing are empty exactly when every requested label exists |
| Frames.LabelPositions | src/go_analog_shared_functions.py:57 | the positions of a label: exactly the positions holding it, in increasing order, none for an absent label |
| Frames.LabelPositionsComplete | src/go_analog_shared_functions.py:57 | every position holding a label is among that label's positions |
| Frames.LabelPositionsIncreasing | src/go_analog_shared_functions.py:57 | a label's positions come in increasing order, as pandas keeps the column order |
| Frames.SingleLabel | src/go_analog_shared_functions.py:56 | a label that is present and not repeated has one position, the first one holding it |
| Frames.DistinctNotRepeated | src/go_analog_shared_functions.py:56 | with distinct labels no label is repeated |
| Frames.Positions | src/go_analog_shared_functions.py:57 | the selected positions hold requested labels, and every position holding a requested label is selected |
| Frames.PositionsDistinct | src/go_analog_shared_functions.py:57 | with distinct labels one column is selected per request, in request order, at that label's position |
| Frames.RearrangedColumns | src/go_analog_shared_functions.py:57 | the selected labels are exactly the requested ones, and with distinct frame labels they are the request itself |
| Frames.SortColumnCopies | src/go_analog_shared_functions.py:56-57 | every selected copy of a label held once is that column |
| Frames.SelectedSorted | src/go_analog_shared_functions.py:56-57 | selecting columns after sorting on column k leaves the rows sorted on every selected copy of column k |
| Frames.SortedSelectionSpec | src/go_analog_shared_functions.py:56-57 | a sorted selection has one row per kept row, each the projection of a kept row, sorted on every shown copy of the sort column |
| Frames.RearrangedRows | src/go_analog_shared_functions.py:52-57 | a successful `rearrange_table` has `min(n, len)` rows for a non-negative n, each a projection of a head (or tail) row, sorted on every selected copy of the sort column |
| Frames.RearrangedSpec | src/go_analog_shared_functions.py:50-57 | a successful `rearrange_table`: the sort column exists exactly once and the shown columns exist; the result's labels are the requested ones, exactly the request when the frame's labels are distinct; `min(n, len)` rows for a non-negative n; each row is a projection of a head (or tail) row; the rows are sorted on every shown copy of the sort column; a well-formed frame stays well-formed when no label is requested twice |
| Frames.SelectColumns | src/go_analog.py:79 | `ism[vg_names]` fails exactly when a name is not a column, with a `KeyError` that lists the missing names; otherwise it keeps every row with the similarities of the named columns, in the order given |
| SharedFunctions.FindSimilarGames | src/go_analog_shared_functions.py:32-40 | "Game not in database" exactly when the name is not a column; otherwise all rows but one, in descending order, which with the dropped maximum make up the whole column, with distinct labels |
| SharedFunctions.DropTop | src/go_analog_shared_functions.py:35-36 | dropping the first of a descending permutation leaves a descending list that, with the dropped maximum, is the whole column |
| SharedFunctions.ColumnDistinct | src/go_analog_shared_functions.py:37 | a similarity column has one pair per row label |
| SharedFunctions.RearrangeTable | src/go_analog_shared_functions.py:50-57 | meets `Rearranged`: a `KeyError` for an unknown sort column, a `ValueError` for a sort column whose label the frame repeats, a `TypeError` for a column mixing numbers and text, a `KeyError` listing the unknown display columns, otherwise the sorted selection of the head or tail rows |
| Sim.FindSimilarGames | sim.py:44-55 | "Game not in database" exactly when the name is not a column; otherwise `min(n, len-1)` games (none for n < 0), most extreme first; with the dropped top they come from the column, the top is at least as extreme as all of them, and they are at least as extreme as every row not selected |
| Sim.ExtremesCount | sim.py:47-51 | `nlargest(n+1)` without its first row has `min(n, len-1)` rows, none for n < 0 |
| Sim.ExtremesOrdered | sim.py:47-51 | those rows are ordered, most extreme first |
| Sim.ExtremesBeyond | sim.py:47-51 | for n ≥ 0 and a non-empty column, some dropped top row, together with them, is part of the column; it is at least as extreme as all of them, and they are at least as extreme as everything left out |
| Sim.DropFirstExtreme | sim.py:48-51 | dropping the first of the n+1 extremes keeps them ordered; the dropped one is at least as extreme as them, and they are at least as extreme as everything left out |
| Sim.Swap | sim.py:71 | exchanges two rows, and the array stays a permutation of what it was |
| Sim.SortRows | sim.py:71 | the in-place sort leaves the rows sorted on the column and a permutation of what they were |
| Sim.RearrangeTable | sim.py:65-72 | meets `Rearranged`, the same specification as the shared helper (including its `KeyError`, `ValueError` and `TypeError` cases), by sorting the kept rows in an array |
| GoAnalog.NormalizeRatings | src/go_analog.py:24-43 | one result pair per kept game, with the kept games' ids, in order |
| GoAnalog.NormalizeRatingsKeeps | src/go_analog.py:31-34 | the results number the games played at least the cutoff; the kept games are exactly those, in input order, and the ids stay aligned |
| GoAnalog.NormalizeRatingsScores | src/go_analog.py:35-41 | without z-scores the values are the logarithms. With z-scores, when the logarithms are standardizable, each id's value is the z-score of its own logarithm (scaled back and shifted it is that logarithm) and the values sum to zero; otherwise all are NaN |
| GoAnalog.NameGames | src/go_analog.py:71-72 | keeps one pair per game whose id the catalogue knows |
| GoAnalog.NameGamesKeeps | src/go_analog.py:71-72 | the number of kept pairs is the number of known ids; they keep input order and pair each catalogue name with its game's score |
| GoAnalog.NameGamesRecords | src/go_analog.py:71-72 | every known game appears under its name with its score, and nothing else appears |
| GoAnalog.NeighborCountSpec | src/go_analog.py:82 | a board game's neighbour count is the number of played games whose similarity reaches the cutoff |
| GoAnalog.CandidatesSpec | src/go_analog.py:82-83 | a board game is a candidate exactly when its neighbour count reaches the minimum, and every candidate is a matrix row |
| GoAnalog.CandidatesOrdered | src/go_analog.py:83 | candidates keep the matrix order and have distinct names |
| GoAnalog.CandidateWidths | src/go_analog.py:95 | each candidate row has one similarity per played game |
| GoAnalog.ExplanationSpec | src/go_analog.py:91-92 | the explanation lists `min(based_on_n, played)` games (none for a non-positive n), in non-increasing similarity, drawn from the played games, each at least as similar as every game not listed |
| GoAnalog.ExplanationNotPopular | src/go_analog.py:92 | an explanation can never be mistaken for the popular-game text |
| GoAnalog.PredictionsSpec | src/go_analog.py:95-100 | one prediction per candidate. Raw predictions are real dot products when the playtimes are real, NaN otherwise; the standardized predictions are real and sum to zero when standardizable, all NaN otherwise |
| GoAnalog.FallbackSpec | src/go_analog.py:115-118 | without `popular_games` the fallback is -100. With it and no candidate the result is `UnboundLocalError` for `bg`; with a candidate it is the average of the last candidate, NaN when it has none |
| GoAnalog.LastCandidateRow | src/go_analog.py:90 | the last candidate is the last matrix row whose neighbour count reaches the minimum |
| GoAnalog.NoCandidates | src/go_analog.py:86 | there is no candidate exactly when every row's neighbour count is below the minimum |
| GoAnalog.OutputsSpec | src/go_analog.py:114-124 | one output per matrix row, in row order, each under its row's name. A candidate gets its standardized prediction and its explanation; any other row gets the fallback and the popular-game text |
| GoAnalog.OutputRow | src/go_analog.py:120-123 | the same statement for a single row |
| GoAnalog.OutputAt | src/go_analog.py:122-123 | `dict.get` with a default is correct on a row: a candidate's value, otherwise the default |
| GoAnalog.NatToString | src/go_analog.py:129 | `str(x)` of a natural number is a non-empty string of digits that starts with `0` only for zero |
| GoAnalog.DigitChar | src/go_analog.py:129 | a digit character stands for its digit |
| GoAnalog.NatToStringRoundTrip | src/go_analog.py:129 | reading back the decimal digits of `str(x)` gives x |
| GoAnalog.LabelsDistinct | src/go_analog.py:129 | different ranks get different labels |
| GoAnalog.ShownRows | src/go_analog.py:127-128 | every row left after the filter has a real score above -100 |
| GoAnalog.Rank | src/go_analog.py:129 | one ranked row per kept row: row k keeps that row's game, score and reason and is labelled `#k+1` |
| GoAnalog.Recommend | src/go_analog.py:129 | a ranked row keeps its output row's columns and carries the given label |
| GoAnalog.ShownRowsSorted | src/go_analog.py:127-128 | the kept rows are in non-increasing score order |
| GoAnalog.ShownRowsContents | src/go_analog.py:127-128 | the kept rows are exactly the output rows with a score above -100, with their multiplicities, and distinct games stay distinct |
| GoAnalog.RankedEntries | src/go_analog.py:129 | adding the ranking column changes no other column |
| GoAnalog.RankedSpec | src/go_analog.py:127-129 | the ranked list is sorted by non-increasing score; row k scores above -100 and is labelled `#k+1`; its rows are the output rows scoring above -100; games are distinct when the output's were |
| GoAnalog.SelectedRows | src/go_analog.py:79 | after a successful column selection every played game is a column, and each row holds those similarities |
| GoAnalog.RecommendationsErrors | src/go_analog.py:64-131 | `KeyError` exactly when a played, catalogued game is not a matrix column. When every such game is a column, the result is an error exactly when there is no candidate and either `popular_games` is set or the matrix has rows |
| GoAnalog.RecommendationsSpec | src/go_analog.py:64-131 | for a successful call: every played game is a column; the result is a ranked list (sorted, above -100, labelled `#1…`, distinct games and labels); each row has a candidate's explanation, or the popular-game text when it is not a candidate; all popular-game rows share one score |
| GoAnalog.RankedScores | src/go_analog.py:95-129 | every ranked row of the outputs of a matrix carries its board game's own score: a candidate's standardized prediction, or the fallback |
| GoAnalog.RecommendationsOutputs | src/go_analog.py:114-131 | a successful result is the ranking of the output rows built from the selected matrix with the fallback score of its candidates; those rows have distinct games, each shown row is explained, and every popular-game row carries that fallback |
| GoAnalog.RecommendationsScores | src/go_analog.py:95-124 | every recommended score is its board game's own: a candidate's standardized prediction, and the fallback for any other board game |
| GoAnalog.OutputsFacts | src/go_analog.py:119-124 | output rows built per row label have distinct games and the right explanation text |
| GoAnalog.RankedFacts | src/go_analog.py:127-129 | ranking outputs with distinct games gives a ranked list whose rows come from the outputs |
| GoAnalog.ExplainCandidates | src/go_analog.py:89-92 | the loop builds exactly the explanation map of the candidates |
| GoAnalog.AppendOutputs | src/go_analog.py:114-124 | the loop builds the output rows. When `based_on_games_you_play` was never bound it raises `UnboundLocalError` on the first row |
| GoAnalog.RecommendBoardgames | src/go_analog.py:64-131 | the method computes exactly `Recommendations`, whose properties the lemmas above state |

## Left out

- `get_games` and its Steam HTTP request (lines 9-22), and the `st.error`/`st.stop` branches of lines 54-62: they are network I/O and UI. The profile list is a parameter.
- `load_vg_data_for_web_app`, `load_bg_data_for_web_app` and `st.cache` are CSV loading and caching. Their results, the id-to-name map and the averages, are parameters.
- The `round(2)` of line 110: the averages are taken as already rounded, since float rounding is not modelled.
- `annotate_table`, `render_table`, `column_settings`, the Streamlit `app` functions and the page files: they are display code outside the recommendation core.
- Floating point: arithmetic is exact on reals, and infinities and NaN cells in the similarity matrix are not modelled. NaN arises only from a zero- or undefined-spread z-score, and from a missing average.
- `ln` and `sqrt` are parameters, not the IEEE functions.
- Default arguments: `normalize_ratings` is used with cutoff 10 and z-scores on, as line 64 calls it. The other defaults are ordinary parameters.
- Sorting.SortBy: pandas `sort_values` does not promise an order among equal keys, so every contract that uses it states only "sorted and a permutation". The stable sort inside is one allowed order.
- Sorting.TopN: `nlargest`/`nsmallest` keep the first of equal values (`keep='first'`). Ties among equal similarities are only "some most-extreme elements" here.
- GoAnalog.ExplanationSpec: for the same reason, ties among equally similar played games are not resolved to pandas' order.
- Sorting.InOrder orders numbers before text. A column mixing the two raises `TypeError` before any sort, so that choice is never used.
- The question of whether `df.loc[bgs_with_neighbors]` can contain duplicate labels is excluded. Matrix row and column labels are required to be distinct (`WellFormedMatrix`). Frames given to `rearrange_table` may repeat labels.
- Numbers.Standardizable: a positive variance whose square root the `sqrt` parameter does not make positive also gives NaN z-scores. numpy's square root is positive there, so for it this is the zero-variance case only.
