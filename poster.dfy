/**
 * `fetch_poster`: resolve a TMDB movie id (and optionally its title) to a poster URL, with up
 * to three attempts, a search-by-title fallback and two placeholder URLs. The network is an
 * oracle: one `Attempt` per iteration of the retry loop says how its requests would end.
 */
module Poster {
  import opened Wrappers

  const MaxAttempts := 3
  const ImagePrefix := "https://image.tmdb.org/t/p/w500/"
  const NoImageUrl := "https://via.placeholder.com/500x750?text=No+Image"
  const ErrorUrl := "https://via.placeholder.com/500x750?text=Error"

  /** A JSON `poster_path` field: absent or null (`None`), or a string. */
  type PosterPath = Option<string>

  /** Python truthiness of an optional string: present and non-empty. */
  predicate Truthy(v: Option<string>)
  {
    v.Some? && v.value != ""
  }

  /**
   * How the title search ends: a `RequestException`, or a response whose `results` list
   * (absent counts as empty) gives each result's `poster_path`.
   */
  datatype Search = SearchFailed | SearchOk(results: seq<PosterPath>)

  /**
   * How one attempt's requests end: the detail request raises a `RequestException`, or it
   * answers with a `poster_path`; `search` is what the title search would answer, consulted
   * only if the attempt issues it.
   */
  datatype Attempt = DetailFailed | DetailOk(posterPath: PosterPath, search: Search)

  /** A request sent to the service. */
  datatype Request = DetailRequest(movieId: int) | SearchRequest(query: string)

  /** The title search runs when the detail poster path is falsy and a title was given. */
  predicate NeedsSearch(title: Option<string>, a: Attempt)
  {
    a.DetailOk? && !Truthy(a.posterPath) && Truthy(title)
  }

  /** An attempt raises (and is retried) when the detail request or the title search fails. */
  predicate Fails(title: Option<string>, a: Attempt)
  {
    a.DetailFailed? || (NeedsSearch(title, a) && a.search.SearchFailed?)
  }

  /** The `poster_path` an attempt that does not raise ends with. */
  function FoundPath(title: Option<string>, a: Attempt): PosterPath
    requires !Fails(title, a)
  {
    if NeedsSearch(title, a) && |a.search.results| > 0 then a.search.results[0] else a.posterPath
  }

  /** The URL an attempt that does not raise returns. */
  function AttemptUrl(title: Option<string>, a: Attempt): string
    requires !Fails(title, a)
  {
    var path := FoundPath(title, a);
    if Truthy(path) then ImagePrefix + path.value else NoImageUrl
  }

  /** The requests one attempt sends, in order. */
  function AttemptRequests(movieId: int, title: Option<string>, a: Attempt): seq<Request>
  {
    [DetailRequest(movieId)] + if NeedsSearch(title, a) then [SearchRequest(title.value)] else []
  }

  /** The URL returned when the loop is at attempt `k`. */
  function ResolveFrom(title: Option<string>, outcomes: seq<Attempt>, k: nat): string
    requires |outcomes| >= MaxAttempts
    decreases MaxAttempts - k
  {
    if k >= MaxAttempts then ErrorUrl
    else if Fails(title, outcomes[k]) then ResolveFrom(title, outcomes, k + 1)
    else AttemptUrl(title, outcomes[k])
  }

  /** The requests sent from attempt `k` on. */
  function RequestsFrom(movieId: int, title: Option<string>, outcomes: seq<Attempt>, k: nat): seq<Request>
    requires |outcomes| >= MaxAttempts
    decreases MaxAttempts - k
  {
    if k >= MaxAttempts then []
    else if Fails(title, outcomes[k])
    then AttemptRequests(movieId, title, outcomes[k]) + RequestsFrom(movieId, title, outcomes, k + 1)
    else AttemptRequests(movieId, title, outcomes[k])
  }

  /** The URL `fetch_poster(movie_id, title)` returns. */
  function Resolve(title: Option<string>, outcomes: seq<Attempt>): string
    requires |outcomes| >= MaxAttempts
  {
    ResolveFrom(title, outcomes, 0)
  }

  /** The requests `fetch_poster(movie_id, title)` sends. */
  function Requests(movieId: int, title: Option<string>, outcomes: seq<Attempt>): seq<Request>
    requires |outcomes| >= MaxAttempts
  {
    RequestsFrom(movieId, title, outcomes, 0)
  }

  /**
   * The body of the `try` block: the detail request, the title search when the detail poster
   * path is falsy and a title was given, and the URL built from the path found. `raised` says
   * that one of the requests raised a `RequestException`.
   */
  method TryAttempt(movieId: int, title: Option<string>, a: Attempt)
    returns (raised: bool, url: string, sent: seq<Request>)
    ensures raised == Fails(title, a)
    ensures !raised ==> url == AttemptUrl(title, a)
    ensures sent == AttemptRequests(movieId, title, a)
  {
    sent := [DetailRequest(movieId)];
    url := "";
    if a.DetailFailed? {
      return true, url, sent;
    }
    var posterPath := a.posterPath;
    if !Truthy(posterPath) && Truthy(title) {
      sent := sent + [SearchRequest(title.value)];
      match a.search
      case SearchFailed =>
        return true, url, sent;
      case SearchOk(results) =>
        if |results| > 0 {
          posterPath := results[0];
        }
    }
    if Truthy(posterPath) {
      url := ImagePrefix + posterPath.value;
    } else {
      url := NoImageUrl;
    }
    raised := false;
  }

  /**
   * The retry loop of `fetch_poster`. Returns the URL and the requests sent; a failed request
   * is caught, logged and backed off from (not modelled) and the next attempt starts over with
   * the detail request.
   */
  method FetchPoster(movieId: int, title: Option<string>, outcomes: seq<Attempt>)
    returns (url: string, sent: seq<Request>)
    requires |outcomes| >= MaxAttempts
    ensures url == Resolve(title, outcomes)
    ensures sent == Requests(movieId, title, outcomes)
  {
    sent := [];
    for attempt := 0 to MaxAttempts
      invariant ResolveFrom(title, outcomes, attempt) == Resolve(title, outcomes)
      invariant sent + RequestsFrom(movieId, title, outcomes, attempt) == Requests(movieId, title, outcomes)
    {
      var raised, attemptUrl, attemptSent := TryAttempt(movieId, title, outcomes[attempt]);
      ConcatAssoc(sent, attemptSent, RequestsFrom(movieId, title, outcomes, attempt + 1));
      sent := sent + attemptSent;
      if !raised {
        return attemptUrl, sent;
      }
    }
    url := ErrorUrl;
  }

  /** The number of detail requests among `rs`. */
  function DetailCount(rs: seq<Request>): nat
  {
    if rs == [] then 0 else (if rs[0].DetailRequest? then 1 else 0) + DetailCount(rs[1..])
  }

  lemma {:induction false} DetailCountConcat(a: seq<Request>, b: seq<Request>)
    ensures DetailCount(a + b) == DetailCount(a) + DetailCount(b)
  {
    if a == [] {
      assert a + b == b;
    } else {
      assert (a + b)[1..] == a[1..] + b;
      DetailCountConcat(a[1..], b);
    }
  }

  /** The three kinds of URL are told apart by their text: no image URL is a placeholder. */
  lemma UrlKindsDistinct(path: string)
    ensures ImagePrefix + path != ErrorUrl
    ensures ImagePrefix + path != NoImageUrl
    ensures NoImageUrl != ErrorUrl
  {
    assert (ImagePrefix + path)[8] == 'i';
    assert ErrorUrl[8] == 'v' && NoImageUrl[8] == 'v';
    assert NoImageUrl[41] == 'N' && ErrorUrl[41] == 'E';
  }

  lemma AttemptSendsOneDetail(movieId: int, title: Option<string>, a: Attempt)
    ensures DetailCount(AttemptRequests(movieId, title, a)) == 1
  {
    var here := AttemptRequests(movieId, title, a);
    if NeedsSearch(title, a) {
      var search := [SearchRequest(title.value)];
      assert search[1..] == [];
      assert DetailCount(search) == 0;
      assert here[1..] == search;
    } else {
      assert here[1..] == [];
    }
  }

  lemma {:induction false} ErrorFromIffAllFail(title: Option<string>, outcomes: seq<Attempt>, k: nat)
    requires |outcomes| >= MaxAttempts && k <= MaxAttempts
    ensures ResolveFrom(title, outcomes, k) == ErrorUrl <==>
              forall j :: k <= j < MaxAttempts ==> Fails(title, outcomes[j])
    decreases MaxAttempts - k
  {
    if k < MaxAttempts {
      ErrorFromIffAllFail(title, outcomes, k + 1);
      if !Fails(title, outcomes[k]) {
        var path := FoundPath(title, outcomes[k]);
        UrlKindsDistinct(if path.Some? then path.value else "");
      }
    }
  }

  /**
   * `fetch_poster` returns the Error placeholder exactly when all three attempts raise, by a
   * failed detail request or a failed title search; the exception never reaches the caller.
   */
  lemma ErrorIffAllFail(title: Option<string>, outcomes: seq<Attempt>)
    requires |outcomes| >= MaxAttempts
    ensures Resolve(title, outcomes) == ErrorUrl <==>
              forall j :: 0 <= j < MaxAttempts ==> Fails(title, outcomes[j])
  {
    ErrorFromIffAllFail(title, outcomes, 0);
  }

  lemma {:induction false} SettledFrom(movieId: int, title: Option<string>, outcomes: seq<Attempt>, k: nat, from: nat)
    requires |outcomes| >= MaxAttempts
    requires from <= k < MaxAttempts && !Fails(title, outcomes[k])
    requires forall j :: from <= j < k ==> Fails(title, outcomes[j])
    ensures ResolveFrom(title, outcomes, from) == AttemptUrl(title, outcomes[k])
    ensures DetailCount(RequestsFrom(movieId, title, outcomes, from)) == k - from + 1
    decreases k - from
  {
    AttemptSendsOneDetail(movieId, title, outcomes[from]);
    if from < k {
      SettledFrom(movieId, title, outcomes, k, from + 1);
      DetailCountConcat(AttemptRequests(movieId, title, outcomes[from]), RequestsFrom(movieId, title, outcomes, from + 1));
    }
  }

  lemma {:induction false} SettledLastFrom(movieId: int, title: Option<string>, outcomes: seq<Attempt>, k: nat, from: nat)
    requires |outcomes| >= MaxAttempts
    requires from <= k < MaxAttempts && !Fails(title, outcomes[k])
    requires forall j :: from <= j < k ==> Fails(title, outcomes[j])
    ensures exists front :: RequestsFrom(movieId, title, outcomes, from) ==
                              front + AttemptRequests(movieId, title, outcomes[k])
    decreases k - from
  {
    var last := AttemptRequests(movieId, title, outcomes[k]);
    if from == k {
      assert RequestsFrom(movieId, title, outcomes, from) == [] + last;
    } else {
      SettledLastFrom(movieId, title, outcomes, k, from + 1);
      var here := AttemptRequests(movieId, title, outcomes[from]);
      var front :| RequestsFrom(movieId, title, outcomes, from + 1) == front + last;
      ConcatAssoc(here, front, last);
    }
  }

  /**
   * The first attempt `k` that does not raise ends the loop: the URL is that attempt's, the
   * detail request was sent exactly k + 1 times, and the last requests sent are its own.
   */
  lemma Settled(movieId: int, title: Option<string>, outcomes: seq<Attempt>, k: nat)
    requires |outcomes| >= MaxAttempts
    requires k < MaxAttempts && !Fails(title, outcomes[k])
    requires forall j :: 0 <= j < k ==> Fails(title, outcomes[j])
    ensures Resolve(title, outcomes) == AttemptUrl(title, outcomes[k])
    ensures DetailCount(Requests(movieId, title, outcomes)) == k + 1
    ensures exists front :: Requests(movieId, title, outcomes) ==
                              front + AttemptRequests(movieId, title, outcomes[k])
  {
    SettledFrom(movieId, title, outcomes, k, 0);
    SettledLastFrom(movieId, title, outcomes, k, 0);
  }

  lemma {:induction false} RequestsFromCount(movieId: int, title: Option<string>, outcomes: seq<Attempt>, k: nat)
    requires |outcomes| >= MaxAttempts && k <= MaxAttempts
    ensures DetailCount(RequestsFrom(movieId, title, outcomes, k)) <= MaxAttempts - k
    ensures (forall j :: k <= j < MaxAttempts ==> Fails(title, outcomes[j])) ==>
              DetailCount(RequestsFrom(movieId, title, outcomes, k)) == MaxAttempts - k
    decreases MaxAttempts - k
  {
    if k < MaxAttempts {
      AttemptSendsOneDetail(movieId, title, outcomes[k]);
      RequestsFromCount(movieId, title, outcomes, k + 1);
      DetailCountConcat(AttemptRequests(movieId, title, outcomes[k]), RequestsFrom(movieId, title, outcomes, k + 1));
    }
  }

  lemma {:induction false} RequestsFromShape(movieId: int, title: Option<string>, outcomes: seq<Attempt>, k: nat)
    requires |outcomes| >= MaxAttempts && k <= MaxAttempts
    ensures |RequestsFrom(movieId, title, outcomes, k)| <= 2 * (MaxAttempts - k)
    ensures forall q :: SearchRequest(q) in RequestsFrom(movieId, title, outcomes, k) ==>
              Truthy(title) && q == title.value
    decreases MaxAttempts - k
  {
    if k < MaxAttempts {
      RequestsFromShape(movieId, title, outcomes, k + 1);
    }
  }

  /**
   * The detail request goes out at most three times, and exactly three times when every attempt
   * raises; at most six requests are sent; a title search is sent only for a truthy title, and
   * its query is that title.
   */
  lemma AttemptBound(movieId: int, title: Option<string>, outcomes: seq<Attempt>)
    requires |outcomes| >= MaxAttempts
    ensures DetailCount(Requests(movieId, title, outcomes)) <= MaxAttempts
    ensures |Requests(movieId, title, outcomes)| <= 2 * MaxAttempts
    ensures (forall j :: 0 <= j < MaxAttempts ==> Fails(title, outcomes[j])) ==>
              DetailCount(Requests(movieId, title, outcomes)) == MaxAttempts
    ensures forall q :: SearchRequest(q) in Requests(movieId, title, outcomes) ==>
              Truthy(title) && q == title.value
  {
    RequestsFromCount(movieId, title, outcomes, 0);
    RequestsFromShape(movieId, title, outcomes, 0);
  }

  /** When not every attempt raises, the first one that does not. */
  lemma FirstSettling(title: Option<string>, outcomes: seq<Attempt>) returns (k: nat)
    requires |outcomes| >= MaxAttempts
    requires !forall j :: 0 <= j < MaxAttempts ==> Fails(title, outcomes[j])
    ensures k < MaxAttempts && !Fails(title, outcomes[k])
    ensures forall j :: 0 <= j < k ==> Fails(title, outcomes[j])
  {
    k := if !Fails(title, outcomes[0]) then 0 else if !Fails(title, outcomes[1]) then 1 else 2;
  }

  /**
   * The URL is one of three kinds and never empty: the image prefix followed, unchanged, by the
   * truthy poster path of the attempt that ended the loop, the No+Image placeholder when that
   * attempt found no path by either route, or the Error placeholder.
   */
  lemma ResolveKinds(title: Option<string>, outcomes: seq<Attempt>)
    requires |outcomes| >= MaxAttempts
    ensures Resolve(title, outcomes) != ""
    ensures Resolve(title, outcomes) == ErrorUrl ||
            exists k :: 0 <= k < MaxAttempts && !Fails(title, outcomes[k]) &&
              (forall j :: 0 <= j < k ==> Fails(title, outcomes[j])) &&
              Resolve(title, outcomes) ==
                (if Truthy(FoundPath(title, outcomes[k])) then ImagePrefix + FoundPath(title, outcomes[k]).value
                 else NoImageUrl)
  {
    ErrorIffAllFail(title, outcomes);
    if Resolve(title, outcomes) != ErrorUrl {
      var k := FirstSettling(title, outcomes);
      SettledFrom(0, title, outcomes, k, 0);
    }
  }

  /**
   * A truthy detail `poster_path` short-circuits: the URL is the image prefix followed by it,
   * with no normalisation, and no title search is sent in that attempt.
   */
  lemma DetailPathShortCircuits(movieId: int, title: Option<string>, outcomes: seq<Attempt>, k: nat)
    requires |outcomes| >= MaxAttempts
    requires k < MaxAttempts && outcomes[k].DetailOk? && Truthy(outcomes[k].posterPath)
    requires forall j :: 0 <= j < k ==> Fails(title, outcomes[j])
    ensures Resolve(title, outcomes) == ImagePrefix + outcomes[k].posterPath.value
    ensures AttemptRequests(movieId, title, outcomes[k]) == [DetailRequest(movieId)]
    ensures Requests(movieId, title, outcomes)[|Requests(movieId, title, outcomes)| - 1] == DetailRequest(movieId)
    ensures DetailCount(Requests(movieId, title, outcomes)) == k + 1
  {
    Settled(movieId, title, outcomes, k);
  }

  /** A detail response whose poster path is "/x.jpg" gives a double slash in the URL. */
  lemma DetailPathExample(rest: seq<Attempt>)
    requires |rest| >= MaxAttempts - 1
    ensures Resolve(None, [DetailOk(Some("/x.jpg"), SearchFailed)] + rest) ==
              "https://image.tmdb.org/t/p/w500//x.jpg"
    ensures Requests(42, None, [DetailOk(Some("/x.jpg"), SearchFailed)] + rest) == [DetailRequest(42)]
  {
  }

  /** A null detail poster path and a title fall back to the first search result's path. */
  lemma SearchFallbackExample(rest: seq<Attempt>)
    requires |rest| >= MaxAttempts - 1
    ensures Resolve(Some("Ghost"), [DetailOk(None, SearchOk([Some("/g.jpg")]))] + rest) ==
              "https://image.tmdb.org/t/p/w500//g.jpg"
    ensures Requests(99, Some("Ghost"), [DetailOk(None, SearchOk([Some("/g.jpg")]))] + rest) ==
              [DetailRequest(99), SearchRequest("Ghost")]
  {
  }

  /** A failed title search is retried like a failed detail request, detail request first. */
  lemma FailedSearchExample()
    ensures Resolve(Some("Ghost"), [DetailOk(None, SearchFailed), DetailOk(None, SearchFailed),
                                    DetailOk(Some(""), SearchFailed)]) == ErrorUrl
    ensures Requests(7, Some("Ghost"), [DetailOk(None, SearchFailed), DetailOk(None, SearchFailed),
                                        DetailOk(Some(""), SearchFailed)]) ==
              [DetailRequest(7), SearchRequest("Ghost"), DetailRequest(7), SearchRequest("Ghost"),
               DetailRequest(7), SearchRequest("Ghost")]
  {
  }

  /** Without a title, a response with no poster path gives No+Image at once. */
  lemma NoTitleNoImageExample(rest: seq<Attempt>)
    requires |rest| >= MaxAttempts - 1
    ensures Resolve(None, [DetailOk(None, SearchFailed)] + rest) == NoImageUrl
    ensures Requests(5, None, [DetailOk(None, SearchFailed)] + rest) == [DetailRequest(5)]
  {
  }

  lemma ConcatAssoc<T>(a: seq<T>, b: seq<T>, c: seq<T>)
    ensures (a + b) + c == a + (b + c)
  {
  }
}
