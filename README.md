# Movie recommender: ranking and poster resolution

A Dafny model of the two pieces of logic in the Streamlit movie recommender
(`movie-recommendation-system/app.py`):

- **`recommend`** finds the first catalog row whose title is the selected movie,
  enumerates that row of the precomputed similarity matrix as (position, score) pairs,
  sorts them by score, descending and stably, keeps sorted ranks 1 to 5, and builds two
  parallel lists, the titles and the poster URLs, in a loop that calls `fetch_poster`.
- **`fetch_poster`** turns a TMDB movie id (and the title, as a fallback search key) into
  a poster URL. It makes up to three attempts. Each attempt requests the movie's details
  and, when the `poster_path` is falsy and a title was given, searches by title. A
  `RequestException` from either request is caught and the next attempt starts over. The
  result is the TMDB image URL, the "No+Image" placeholder, or the "Error" placeholder.

Modules:

- `Wrappers` (`wrappers.dfy`): `Option` and `Min`.
- `Ranking` (`ranking.dfy`): the pure ranking step. `FirstMatch` is the title lookup.
  `SortDesc` is a stable insertion sort that compares scores only. `Distances` is the
  sorted enumeration of a row, and `Neighbours` is the slice `[1:6]`. Lemmas show that
  `Distances` is the unique permutation that is non-increasing in score and keeps equal
  scores in ascending position order. They also state when the selected movie is dropped.
  `TopOthers` is the ranking that leaves the selected position out before sorting.
- `Poster` (`poster.dfy`): the retry loop `FetchPoster` as a method with early returns. It
  is proved against the functions `Resolve` (the URL) and `Requests` (the requests sent).
  Lemmas about those functions state the attempt bound, the short-circuits and the three
  URL kinds.
- `Recommender` (`recommender.dfy`): `Recommend`, the output-assembly loop. It calls
  `FetchPoster` for each neighbour.

The network is an oracle. An `Attempt` says how one loop iteration's requests end:
`DetailFailed`, or `DetailOk(posterPath, search)`, where `search` is `SearchFailed` or
`SearchOk(results)`. It lists each result's `poster_path`, and it is read only if that
attempt runs the search. Because `fetch_poster` is memoised per `(movie_id, title)`,
`Recommend` receives the service as a function from that pair to the attempts' outcomes.
The catalog is a sequence of `Movie(movieId, title)` records whose index labels are their
positions. Scores are `real`; only comparisons between them matter.

Where the code falls short of what its docstring promises (app.py:57, "Recommend top 5
similar movies"), the model follows the code:

- The code drops sorted rank 0 unconditionally. It does not check that rank 0 is the
  selected movie.
- The output holds min(5, n - 1) entries, not always five.
- The selected movie can appear among its own recommendations (see Findings).

## Model

| member | source | states |
|---|---|---|
| `Ranking.FirstMatch` | movie-recommendation-system/app.py:60 | the position found holds the title and no earlier position does; there is none exactly when no title matches (the source's `IndexError`) |
| `Ranking.Neighbours` | movie-recommendation-system/app.py:68 | the slice `distances[1:6]` keeps sorted ranks 1 to 5: min(5, n - 1) entries, entry k being rank k + 1 (none for n <= 1) |
| `Ranking.SortDescOrdered` | movie-recommendation-system/app.py:61-65 | the stable score-only sort of an enumeration (ascending positions) is non-increasing in score, with ties in ascending position order |
| `Ranking.OrderedUnique` | movie-recommendation-system/app.py:61-65 | two sequences ranked by (score descending, position ascending) with the same elements are equal |
| `Ranking.DistancesRanked` | movie-recommendation-system/app.py:61-65 | `distances` is a permutation of the enumerated row, non-increasing in score, ties in ascending position order, and it is the only sequence with these properties |
| `Ranking.DistancesEntries` | movie-recommendation-system/app.py:61-62 | every ranked pair is a position of the row with its own score, and every position of the row is ranked |
| `Ranking.SelfAtTopIff` | movie-recommendation-system/app.py:61-68 | the selected position sorts to rank 0 (and is the one dropped) exactly when its score is strictly greater than every earlier position's and at least every later one's |
| `Ranking.SelfInNeighboursIff` | movie-recommendation-system/app.py:61-68 | the selected position appears among the returned neighbours exactly when it sorts to ranks 1 to 5 |
| `Ranking.DecreasingRowRanksInOrder` | movie-recommendation-system/app.py:61-68 | a row with strictly decreasing scores ranks in position order, so the neighbours are positions 1 to 5 |
| `Ranking.TopOthersExcludesSelf` | movie-recommendation-system/app.py:61-68 | the self-excluding ranking (selected position removed before sorting) never contains it, holds min(5, n - 1) entries, each a pair (j, row[j]) of the row, and is ranked |
| `Ranking.TopOthersIsTop` | movie-recommendation-system/app.py:61-68 | every other position left out of the self-excluding ranking ranks below all of those kept |
| `Ranking.NeighboursAgreeIff` | movie-recommendation-system/app.py:61-68 | the returned neighbours equal the self-excluding ranking exactly when the selected position sorts to rank 0; otherwise the rank-0 entry, which heads the self-excluding ranking, is missing from the returned neighbours |
| `Ranking.SelfLeakExample` | movie-recommendation-system/app.py:61-68 | for the row [1.0, 1.0] with the selected movie at position 1, the neighbours are the selected movie itself, while the self-excluding ranking gives position 0 |
| `Recommender.Recommend` | movie-recommendation-system/app.py:55-74 | fails exactly when no title matches; otherwise both lists have min(5, n - 1) entries, and entry k is the title and the `fetch_poster` URL of the catalog row at `distances[k + 1]` |
| `Poster.TryAttempt` | movie-recommendation-system/app.py:20-44 | one attempt raises exactly when the detail request fails or a needed title search fails; otherwise it returns the image URL of the path found, or No+Image; it sends the detail request and, only when needed, the title search |
| `Poster.FetchPoster` | movie-recommendation-system/app.py:19-51 | the loop returns the URL `Resolve` gives and sends exactly the requests `Requests` lists; it never raises |
| `Poster.ErrorIffAllFail` | movie-recommendation-system/app.py:19-51 | the Error placeholder is returned exactly when all three attempts raise, by a failed detail request or a failed title search |
| `Poster.Settled` | movie-recommendation-system/app.py:28-44 | the first attempt that does not raise ends the loop: its URL is returned, the detail request went out exactly once per attempt made, and that attempt's requests are the last sent |
| `Poster.AttemptBound` | movie-recommendation-system/app.py:19-35 | at most three detail requests (exactly three when every attempt raises), at most six requests, and a title search only for a truthy title, querying that title |
| `Poster.ResolveKinds` | movie-recommendation-system/app.py:41-51 | the URL is never empty; it is the Error placeholder, or, for the first attempt that does not raise (the one that ended the loop), the image prefix followed unchanged by the poster path found, or No+Image when none was found |
| `Poster.UrlKindsDistinct` | movie-recommendation-system/app.py:42-51 | an image URL is neither placeholder, and the two placeholders differ |
| `Poster.DetailPathShortCircuits` | movie-recommendation-system/app.py:28-42 | a truthy detail `poster_path` gives the image prefix followed by it, and that attempt sends only its detail request, no title search |
| `Poster.DetailPathExample` | movie-recommendation-system/app.py:22-42 | a detail path "/x.jpg" gives "https://image.tmdb.org/t/p/w500//x.jpg" after the one detail request |
| `Poster.SearchFallbackExample` | movie-recommendation-system/app.py:30-42 | a null detail path with title "Ghost" and first search result "/g.jpg" gives the image URL of "/g.jpg" after a detail request and a search |
| `Poster.FailedSearchExample` | movie-recommendation-system/app.py:30-51 | three failed title searches give the Error placeholder after three detail/search pairs |
| `Poster.NoTitleNoImageExample` | movie-recommendation-system/app.py:30-44 | without a title, a response with no poster path gives No+Image at once, after one request |

## Findings

| source | as written | input that shows it | evidently intended | confidence | as-written member | corrected member |
|---|---|---|---|---|---|---|
| movie-recommendation-system/app.py:61-68 | drops sorted rank 0 on the assumption that it is the selected movie | a similarity row [1.0, 1.0] with the selected movie at position 1: an earlier movie whose feature vector is identical ties it and sorts first | recommend the five most similar movies other than the selected one | medium; not executed | `Ranking.SelfLeakExample` | `Ranking.TopOthersExcludesSelf` |

`Recommend` keeps the code's behaviour. `Ranking.NeighboursAgreeIff` states exactly when
the code and the corrected ranking agree: when the selected position sorts to rank 0.

## Left out

- The Streamlit page (page config, select box, button, columns, images, captions; app.py:8, 86-106): presentation only.
- `load_data` and the pickle and pandas loading (app.py:77-84): file I/O. The catalog and matrix are inputs. `Recommend` requires them to be aligned: one row per catalog entry, each as long as the catalog.
- The HTTP requests, the API key, the URLs of the two TMDB endpoints, the 5-second timeout, and the query string built from the title (app.py:16-17, 22-36). The `Attempt` oracle stands in for them, and a search request carries the raw title.
- Malformed payloads the loop does not catch: a response body that is not a JSON object (`AttributeError` at `.get`, app.py:28, 36), a `results` that is a non-empty object rather than a list (`KeyError` at `results[0]`, app.py:38), and an entry of `results` that is not an object, such as `null` (`AttributeError` at app.py:38). The oracle assumes both response bodies and every entry of `results` are JSON objects. An unparsable body is modelled as a failed request, which assumes `requests` 2.27 or later, where `.json()` raises `JSONDecodeError`, a `RequestException`; before 2.27 it raises a plain `ValueError`, which the `except` at app.py:46 does not catch.
- Non-string `poster_path` values, which the f-string would format: paths are modelled as optional strings, with Python truthiness (absent, null or empty is falsy).
- `time.sleep`, the random back-off and the fixed pauses (app.py:48, 73, 98): they do not affect returned values.
- The `@st.cache_data` memoisation (app.py:10, 54, 77): a library cache. Determinism is modelled instead: the service is a function of (movie id, title).
- The `print` of failed attempts (app.py:47).
- Floating-point similarity values, including NaN, which breaks the ordering Python's sort assumes: scores are modelled as reals.
- The attempt oracle must list an outcome for each of the three attempts (`|outcomes| >= 3`). This is a shape the model requires, not a demand of the source.
