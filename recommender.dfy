/**
 * `recommend`: rank the selected movie's similarity row and build the parallel lists of
 * titles and poster URLs for sorted ranks 1 to 5, fetching each poster in turn.
 */
module Recommender {
  import opened Wrappers
  import opened Ranking
  import Poster

  /** What `recommend` produces: an `IndexError` when the title is missing, or the two lists. */
  datatype Recommendation =
    | TitleNotFound
    | Recommended(names: seq<string>, posters: seq<string>)

  /** The loaded data: one similarity row per catalog position, each as long as the catalog. */
  predicate Aligned(catalog: seq<Movie>, similarity: seq<seq<Score>>)
  {
    |similarity| == |catalog| &&
    forall i :: 0 <= i < |similarity| ==> |similarity[i]| == |catalog|
  }

  /**
   * The poster service, as seen by the memoised `fetch_poster`: what each of the three attempts
   * for a (movie id, title) pair would meet.
   */
  ghost predicate ServiceAnswers(network: (int, string) -> seq<Poster.Attempt>)
  {
    forall id, title :: |network(id, title)| >= Poster.MaxAttempts
  }

  /** The poster URL `fetch_poster(movie_id, title)` gives for a catalog entry. */
  function PosterOf(m: Movie, network: (int, string) -> seq<Poster.Attempt>): string
    requires ServiceAnswers(network)
  {
    Poster.Resolve(Some(m.title), network(m.movieId, m.title))
  }

  method Recommend(movie: string, catalog: seq<Movie>, similarity: seq<seq<Score>>,
                   network: (int, string) -> seq<Poster.Attempt>)
    returns (r: Recommendation)
    requires Aligned(catalog, similarity)
    requires ServiceAnswers(network)
    ensures r.TitleNotFound? <==> forall j :: 0 <= j < |catalog| ==> catalog[j].title != movie
    ensures r.Recommended? ==>
              FirstMatch(catalog, movie).Some? &&
              var top := Neighbours(Distances(similarity[FirstMatch(catalog, movie).value]));
              |r.names| == |r.posters| == |top| == Min(TopK, |catalog| - 1) &&
              forall k :: 0 <= k < |top| ==>
                top[k].0 < |catalog| &&
                r.names[k] == catalog[top[k].0].title &&
                r.posters[k] == PosterOf(catalog[top[k].0], network)
  {
    var found := FirstMatch(catalog, movie);
    if found.None? {
      return TitleNotFound;
    }
    var index := found.value;
    var distances := Distances(similarity[index]);
    DistancesEntries(similarity[index]);
    var top := Neighbours(distances);
    var names, posters := [], [];
    for k := 0 to |top|
      invariant |names| == |posters| == k
      invariant forall m :: 0 <= m < k ==>
                  names[m] == catalog[top[m].0].title && posters[m] == PosterOf(catalog[top[m].0], network)
    {
      var movieAt := catalog[top[k].0];
      names := names + [movieAt.title];
      var url, _ := Poster.FetchPoster(movieAt.movieId, Some(movieAt.title), network(movieAt.movieId, movieAt.title));
      posters := posters + [url];
    }
    return Recommended(names, posters);
  }
}
