# Movie recommendation engine — a Dafny model of its core

The system is a one-page Streamlit application (`app.py`). It loads a catalog
of movies and a precomputed item-by-item similarity matrix. The user picks a
title, and the application shows the ten most similar movies, each with a
poster fetched from the TMDB metadata service.

This project models the pure core of that file and proves its properties.

- **Title lookup** (`Catalog`). An exact title match selects the first
  catalog record with that title. An unknown title is reported, not raised.
- **Ranking** (`Ranker`). The query's similarity row is `enumerate`d and
  sorted by descending score. Python's sort is stable, so equal scores keep
  ascending index order. Ranks 1 to 10 (`[1:11]`) become the candidates.
  - Scores are only compared, so they are modelled as `int`.
  - The sort is written as an insertion sort under the order "higher score
    first, then lower index" (`Ahead`).
  - `RankedPermutationUnique` and `StableSortIsRanking` show that every
    rearrangement of the pairs in that order is the same sequence. So the
    model agrees with any stable descending sort, Python's included.
- **Selection** (`Recommender`). The output loop walks the candidates and
  keeps those whose `movie_id` is truthy (present and not 0). For each one it
  appends a poster URL and then the title. Skipped candidates are not
  replaced from further down the ranking.
- **Poster decision** (`Poster`). This is what `fetch_poster` returns for a
  given answer from the service: the placeholder URL, or the w500 image prefix
  followed by `poster_path`.
- **Presentation** (`Presentation`). Result `idx` goes to row 1, column `idx`,
  when `idx < 5`, and to row 2, column `idx - 5`, otherwise. The handler checks
  `names[0]` for the "not found" sentinel before it renders anything.

Modelling decisions:

- The catalog is a `seq<Movie>`, where a `Movie` has a title and an optional
  integer `movieId`. The similarity matrix is a `seq<seq<int>>`.
- `Consistent` requires one matrix row per record and one score per record in
  each row. The source never checks this: it trusts the pickled files.
- The HTTP call is a parameter `tmdb: int -> Response`. It maps a `movie_id` to
  the status code and the optional `poster_path` of the answer.
- The query is not excluded by index. Only rank 0 is dropped, so the query
  is recommended to itself whenever another movie is ranked before it (a
  higher score, or the same score at a lower catalog position), its own pair
  lands within ranks 1 to 10, and its `movie_id` is truthy
  (`Recommender.QueryRecommendedIff`, `Ranker.RankZeroIff`).
- Every index of the row is enumerated and ranked, the query's own included.
- `fetch_poster` falls back to the placeholder only for a non-200 status and
  a missing or empty `poster_path`. A connection error or an unparsable body
  raises an exception that nothing catches; that path is not modelled.
- A catalog and matrix of different sizes are never detected by the code, so
  the model states consistent sizes as a precondition.

## Model

| member | source | states |
|---|---|---|
| `Catalog.HasId` | app.py:62-63 | the `if movie_id:` test: true exactly when the `movie_id` cell is present and not 0; its consequences are stated by `Recommender.KeptMembers` |
| `Catalog.FindTitle` | app.py:49-52 | None exactly when no record has the title; otherwise the position of a record with that title, and no earlier record has it (duplicates resolve to the first) |
| `Ranker.Ranking` | app.py:56 | the ranked row has one entry per score, each pair carries its own index's score, scores never increase, and equal scores appear in strictly ascending index order |
| `Ranker.RankingPermutes` | app.py:56 | the ranking is a permutation of `enumerate(row)` |
| `Ranker.RankedPermutationUnique` | app.py:56 | two permutations of the same pairs, both in ranked order, are equal |
| `Ranker.StableSortIsRanking` | app.py:56 | any permutation of `enumerate(row)` sorted by descending score with ties in ascending index (what a stable descending sort yields) equals `Ranking(row)` |
| `Ranker.Candidates` | app.py:56 | the slice `[1:11]`: at most ten entries, exactly ranking positions 1..10 (none when the row has at most one entry), with valid indices and their scores |
| `Ranker.CandidatesStrictlyRanked` | app.py:56 | candidates are strictly ordered by (score descending, index ascending), so no index repeats |
| `Ranker.RankZeroIff` | app.py:56 | the pair of index `q` is at rank 0 (the one the slice drops) if and only if no other pair is ranked before it |
| `Ranker.QueryCanBeItsOwnCandidate` | app.py:56 | rank 0 is dropped by position: for row `[1, 5]` the query's own index 0 is the only candidate |
| `Recommender.Kept` | app.py:61-65 | after `n` loop steps, the kept candidates number at most `n`, and each refers to a record with a truthy `movie_id` |
| `Recommender.KeptMembers` | app.py:61-65 | a candidate is kept if and only if it is among the first `n` and its `movie_id` is truthy (missing and 0 are skipped, nothing is added) |
| `Recommender.KeptOrder` | app.py:61-65 | the kept candidates keep the candidates' strict ranking order |
| `Recommender.Recommended` | app.py:56-65 | the recommended candidates for a found query number at most ten and all have truthy ids |
| `Recommender.Recommend` | app.py:47-67 | unknown title gives exactly `(["Movie not found in database."], [])`; otherwise the names and posters lists have the same length and the k-th entries are the title and the poster URL of the k-th recommended candidate |
| `Recommender.RecommendedMembers` | app.py:56-65 | a pair is recommended if and only if it is a candidate (ranks 1..10) whose record has a truthy id |
| `Recommender.RecommendedOrder` | app.py:56-65 | recommendations follow ranking order (strictly by score descending, then catalog position ascending), so no record appears twice |
| `Recommender.FoundTitleCanYieldNothing` | app.py:61-65 | without backfill a found title can give an empty result: with one candidate whose `movie_id` is 0 the result is empty |
| `Recommender.QueryRecommendedIff` | app.py:52-65 | the query's own pair is recommended if and only if it sits at ranks 1..10 of its row and its `movie_id` is truthy; when it is, some other movie is ranked before it |
| `Recommender.QueryCanRecommendItself` | app.py:52-65 | an instance: with rows `[[1, 5], [5, 1]]` and truthy ids, movie "A" is recommended to itself |
| `Poster.PosterUrl` | app.py:35-44 | `fetch_poster`'s decision on the service's answer; its contract is stated by `Poster.PosterDecision` and `Poster.PosterRoundTrip` |
| `Poster.PosterDecision` | app.py:35-44 | a non-200 status, a missing or an empty `poster_path` give the placeholder; otherwise the URL is the w500 prefix followed by the path; the URL is never empty and is the placeholder only in the failure cases |
| `Poster.PosterPathOf` | app.py:44 | a recovered path is non-empty and the URL is the w500 prefix followed by it |
| `Poster.PosterRoundTrip` | app.py:35-44 | recovering the path from the returned URL yields the service's `poster_path` exactly when there is a usable poster, and nothing otherwise |
| `Presentation.Place` | app.py:95 | the cell for `idx < 10` is in row 1 or 2 and a column in [0, 5), and `idx == 5 * (row - 1) + column` |
| `Presentation.PlaceIsBijective` | app.py:93-95 | each of the ten cells receives exactly one result index |
| `Presentation.PlaceTiles` | app.py:93-98 | the render loop places results `0 .. min(10, len(names)) - 1`, each in its cell with its name and poster, and fails with `IndexError` exactly when there are fewer posters than that |
| `Presentation.Render` | app.py:83-98 | as written: an empty names list raises `IndexError`; the sentinel name gives the warning; otherwise the render loop's result |
| `Presentation.RenderGuarded` | app.py:83-98 | with the emptiness check: never fails when there are as many posters as names, an empty list shows an empty grid, the sentinel gives the warning |
| `Presentation.SessionAsWritten` | app.py:79-98 | one button press as written: an unknown title shows the warning; a found title with no recommendation fails with `IndexError`; otherwise the recommended candidates in order, each in its cell with its title and poster (unless the first title equals the sentinel) |
| `Presentation.Session` | app.py:79-98 | one button press with `RenderGuarded`'s emptiness check in place of line 83's bare `names[0]` (for the as-written behaviour see `Presentation.SessionAsWritten`): never an `IndexError`; an unknown title shows the warning; shown results are the recommended candidates in order, each in its cell with its title and poster |

## Findings

| source | as written | input that shows it | evidently intended | confidence | as-written member | corrected member |
|---|---|---|---|---|---|---|
| app.py:83 | `recommended_movies[0]` is read before any length check | catalog `[("A", id 1), ("B", id 0)]`, matrix `[[9, 1], [1, 9]]`, title "A": the only candidate has `movie_id` 0, so `recommend` returns `([], [])` and indexing raises `IndexError` | a found title with no usable candidate shows an empty result grid, as the loop's own "Prevent index errors" guard suggests | not executed | `Presentation.SessionAsWritten` with `Recommender.FoundTitleCanYieldNothing` | `Presentation.RenderGuarded`, used by `Presentation.Session` |

## Left out

- Catalog.FindTitle: assumes the catalog's default index, where a row's
  label equals its position. The source looks up a label (app.py:52), uses it
  as a row position of the matrix (app.py:53) and reads records by position
  (app.py:62, 65); a catalog built with other labels would read a different
  matrix row or fail, which is not modelled.
- Loading the two pickled files, the file-existence checks and the pandas
  DataFrame (app.py:11-27). These are I/O and library internals. The model
  takes the catalog and the matrix as given sequences.
- The HTTP request, the request URL with the API key, and JSON parsing
  (app.py:8, 32-33, 38). These are network and foreign calls. Their outcome is
  the `Response` parameter. Exceptions they can raise are not modelled.
- Floating-point similarity scores. The code only compares scores, so integers
  stand in for them. NaN scores, which do not order totally, are not modelled.
- `movie_id` cells that are neither integers nor missing (NaN, floats) and
  `poster_path` values that are not strings are not modelled. Only `None`,
  `0` and `""` are treated as falsy.
- Python's sort algorithm itself (Timsort). The model uses its own sort and
  proves that any stable descending sort gives the same sequence.
- The Streamlit calls: page setup, headings, the select box, the button, the
  spinner, the images and the warning (app.py:70-98). Only the sentinel
  check, the placement rule and the order of the rendered tiles are modelled.
  A screen that fails part way through rendering is modelled as
  `IndexError`, without the tiles already drawn.
