/**
 * The movie catalog and the similarity matrix, as loaded once at start-up
 * (app.py:24-27), and the title lookup that `recommend` begins with.
 */
module Catalog {
  import opened Wrappers

  /** One catalog row: its title and its optional external (TMDB) identifier. */
  datatype Movie = Movie(title: string, movieId: Option<int>)

  /**
   * Python truthiness of the `movie_id` cell: a missing value and the
   * integer 0 are both falsy.
   */
  predicate HasId(m: Movie) {
    m.movieId.Some? && m.movieId.value != 0
  }

  /**
   * The loader's invariant: one matrix row per catalog record and one score
   * per catalog record in every row. The source never checks it.
   */
  predicate Consistent(catalog: seq<Movie>, similarity: seq<seq<int>>) {
    |similarity| == |catalog| &&
    forall i :: 0 <= i < |similarity| ==> |similarity[i]| == |catalog|
  }

  /**
   * The position of the first record whose title equals `title`, or None
   * when no record has that title (app.py:49 and 52).
   */
  function FindTitle(catalog: seq<Movie>, title: string): (r: Option<nat>)
    ensures r.None? <==> forall i :: 0 <= i < |catalog| ==> catalog[i].title != title
    ensures r.Some? ==> r.value < |catalog| && catalog[r.value].title == title
    ensures r.Some? ==> forall i :: 0 <= i < r.value ==> catalog[i].title != title
  {
    if catalog == [] then None
    else if catalog[0].title == title then Some(0)
    else
      match FindTitle(catalog[1..], title)
      case None => None
      case Some(k) => Some(k + 1)
  }
}
