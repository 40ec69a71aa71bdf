/**
 * The decision part of `fetch_poster` (app.py:30-44): from the metadata
 * service's answer to the poster URL shown to the user.
 */
module Poster {
  import opened Wrappers

  /** The fixed fallback image (app.py:36 and 42). */
  const Placeholder: string := "https://via.placeholder.com/500x750?text=No+Image"

  /** The prefix put in front of a poster path (app.py:44). */
  const ImageBase: string := "https://image.tmdb.org/t/p/w500/"

  /**
   * What the metadata service answered: the HTTP status code and the
   * `poster_path` field of the JSON body (None when absent or null).
   */
  datatype Response = Response(status: int, posterPath: Option<string>)

  /** The answer carries a usable poster: status 200 and a non-empty path. */
  predicate HasPoster(resp: Response) {
    resp.status == 200 && resp.posterPath.Some? && resp.posterPath.value != ""
  }

  /** The URL `fetch_poster` returns for a given answer. */
  function PosterUrl(resp: Response): string {
    if resp.status != 200 then Placeholder
    else match resp.posterPath
      case None => Placeholder
      case Some(path) => if path == "" then Placeholder else ImageBase + path
  }

  /**
   * The decision: a non-200 status, a missing path or an empty path give the
   * placeholder; anything else gives the w500 prefix followed by the path.
   * The URL is never empty, and it is the placeholder only in the first case.
   */
  lemma PosterDecision(resp: Response)
    ensures PosterUrl(resp) != ""
    ensures PosterUrl(resp) == Placeholder <==> !HasPoster(resp)
    ensures HasPoster(resp) ==> PosterUrl(resp) == ImageBase + resp.posterPath.value
  {
    if HasPoster(resp) {
      // The two URLs first differ at character 8: "https://i..." against "https://v...".
      assert (ImageBase + resp.posterPath.value)[8] == 'i' && Placeholder[8] == 'v';
    }
  }

  /** Recovers the poster path from a URL built by `PosterUrl`. */
  function PosterPathOf(url: string): (path: Option<string>)
    ensures path.Some? ==> path.value != "" && url == ImageBase + path.value
  {
    if |url| > |ImageBase| && url[..|ImageBase|] == ImageBase then
      assert url == ImageBase + url[|ImageBase|..];
      Some(url[|ImageBase|..])
    else None
  }

  /**
   * The poster URL is the placeholder exactly when there is no usable poster,
   * and otherwise gives back the very path the service sent.
   */
  lemma PosterRoundTrip(resp: Response)
    ensures PosterPathOf(PosterUrl(resp)) == if HasPoster(resp) then resp.posterPath else None
  {
    if HasPoster(resp) {
      var path := resp.posterPath.value;
      assert (ImageBase + path)[|ImageBase|..] == path;
    } else {
      // The placeholder does not start with the image prefix: character 8 is 'v', not 'i'.
      assert Placeholder[8] == 'v' && ImageBase[8] == 'i';
    }
  }
}
