/**
 * The button handler (app.py:79-98): call `recommend`, show the warning for
 * the sentinel name, or lay the results out in two rows of five columns.
 */
module Presentation {
  import opened Catalog
  import opened Poster
  import opened Recommender

  /** A grid cell: row 1 is the first `st.columns(5)`, row 2 the second. */
  datatype Slot = Slot(row: nat, col: nat)

  /** One rendered result: where it goes, its title and its poster. */
  datatype Tile = Tile(slot: Slot, name: string, poster: string)

  /**
   * What the page shows after the button press: the warning, the grid of
   * results, or the uncaught `IndexError` of a list index out of range.
   */
  datatype Screen = Warning(message: string) | Results(tiles: seq<Tile>) | IndexError

  function Min(a: int, b: int): int { if a < b then a else b }

  /**
   * The cell for result `idx` (app.py:95): the first five go to row 1, the
   * next five to row 2, each in column `idx mod 5`; reading the grid row by
   * row gives the results back in order.
   */
  function Place(idx: nat): (s: Slot)
    requires idx < 10
    ensures 1 <= s.row <= 2 && s.col < 5
    ensures idx == 5 * (s.row - 1) + s.col
  {
    if idx < 5 then Slot(1, idx) else Slot(2, idx - 5)
  }

  /** Every one of the ten cells receives exactly one result index. */
  lemma PlaceIsBijective(s: Slot)
    requires 1 <= s.row <= 2 && s.col < 5
    ensures exists idx :: 0 <= idx < 10 && Place(idx) == s
    ensures forall i, j :: 0 <= i < 10 && 0 <= j < 10 && Place(i) == s && Place(j) == s ==> i == j
  {
    var idx := 5 * (s.row - 1) + s.col;
    assert Place(idx) == s;
  }

  /**
   * The render loop (app.py:93-98): for `idx` in `range(10)`, every index below
   * the number of names is placed with its name and poster; a poster list
   * shorter than that raises `IndexError` at the first missing poster.
   */
  method PlaceTiles(names: seq<string>, posters: seq<string>) returns (screen: Screen)
    ensures screen == IndexError <==> |posters| < Min(10, |names|)
    ensures screen != IndexError ==>
      && screen.Results?
      && |screen.tiles| == Min(10, |names|)
      && forall k :: 0 <= k < |screen.tiles| ==>
           screen.tiles[k] == Tile(Place(k), names[k], posters[k])
  {
    var tiles: seq<Tile> := [];
    for idx := 0 to 10
      invariant |tiles| == Min(idx, |names|)
      invariant |tiles| <= |posters|
      invariant forall k :: 0 <= k < |tiles| ==> tiles[k] == Tile(Place(k), names[k], posters[k])
    {
      if idx < |names| {
        if idx >= |posters| {
          return IndexError;
        }
        tiles := tiles + [Tile(Place(idx), names[idx], posters[idx])];
      }
    }
    return Results(tiles);
  }

  /**
   * The handler as written (app.py:83-98): it reads `names[0]` before any
   * check, so an empty name list raises `IndexError`; the sentinel name shows
   * the warning; anything else is laid out by the render loop.
   */
  method Render(names: seq<string>, posters: seq<string>) returns (screen: Screen)
    ensures names == [] ==> screen == IndexError
    ensures names != [] && names[0] == NotFoundMessage ==> screen == Warning(NotFoundMessage)
    ensures names != [] && names[0] != NotFoundMessage ==>
      && (screen == IndexError <==> |posters| < Min(10, |names|))
      && (screen != IndexError ==>
            && screen.Results?
            && |screen.tiles| == Min(10, |names|)
            && forall k :: 0 <= k < |screen.tiles| ==>
                 screen.tiles[k] == Tile(Place(k), names[k], posters[k]))
  {
    if |names| == 0 {
      return IndexError;
    }
    if names[0] == NotFoundMessage {
      return Warning(names[0]);
    }
    screen := PlaceTiles(names, posters);
  }

  /**
   * The handler with the emptiness check the render loop's own guard shows was
   * intended: an empty name list for a found title shows an empty result grid.
   * With as many posters as names it never fails.
   */
  method RenderGuarded(names: seq<string>, posters: seq<string>) returns (screen: Screen)
    ensures |posters| == |names| ==> screen != IndexError
    ensures names == [] ==> screen == Results([])
    ensures names != [] && names[0] == NotFoundMessage ==> screen == Warning(NotFoundMessage)
    ensures names != [] && names[0] != NotFoundMessage && |posters| == |names| ==>
      && screen.Results?
      && |screen.tiles| == Min(10, |names|)
      && forall k :: 0 <= k < |screen.tiles| ==>
           screen.tiles[k] == Tile(Place(k), names[k], posters[k])
  {
    if |names| > 0 && names[0] == NotFoundMessage {
      return Warning(names[0]);
    }
    screen := PlaceTiles(names, posters);
  }

  /**
   * One button press (app.py:79-98) with the guarded handler: an unknown title
   * shows the warning, and a found title shows its recommendations, at most
   * ten, each with its poster, in recommendation order; the page never fails.
   */
  method Session(catalog: seq<Movie>, similarity: seq<seq<int>>, title: string, tmdb: int -> Response)
    returns (screen: Screen)
    requires Consistent(catalog, similarity)
    ensures screen != IndexError
    ensures FindTitle(catalog, title).None? ==> screen == Warning(NotFoundMessage)
    ensures FindTitle(catalog, title).Some? ==>
      var kept := Recommended(catalog, similarity, FindTitle(catalog, title).value);
      kept == [] || catalog[kept[0].index].title != NotFoundMessage ==> screen.Results?
    ensures screen.Results? ==>
      && FindTitle(catalog, title).Some?
      && var kept := Recommended(catalog, similarity, FindTitle(catalog, title).value);
         && |screen.tiles| == |kept|
         && forall k :: 0 <= k < |kept| ==>
              screen.tiles[k] == Tile(Place(k), catalog[kept[k].index].title,
                                      PosterUrl(tmdb(catalog[kept[k].index].movieId.value)))
  {
    var names, posters := Recommend(catalog, similarity, title, tmdb);
    screen := RenderGuarded(names, posters);
  }

  /**
   * One button press with the handler as written (app.py:79-98): a found title
   * with no kept candidate fails with `IndexError` at `names[0]`.
   */
  method SessionAsWritten(catalog: seq<Movie>, similarity: seq<seq<int>>, title: string, tmdb: int -> Response)
    returns (screen: Screen)
    requires Consistent(catalog, similarity)
    ensures FindTitle(catalog, title).None? ==> screen == Warning(NotFoundMessage)
    ensures FindTitle(catalog, title).Some? ==>
      var kept := Recommended(catalog, similarity, FindTitle(catalog, title).value);
      && (kept == [] ==> screen == IndexError)
      && (kept != [] && catalog[kept[0].index].title == NotFoundMessage ==> screen == Warning(NotFoundMessage))
      && (kept != [] && catalog[kept[0].index].title != NotFoundMessage ==>
            && screen.Results?
            && |screen.tiles| == |kept|
            && forall k :: 0 <= k < |kept| ==>
                 screen.tiles[k] == Tile(Place(k), catalog[kept[k].index].title,
                                         PosterUrl(tmdb(catalog[kept[k].index].movieId.value))))
  {
    var names, posters := Recommend(catalog, similarity, title, tmdb);
    screen := Render(names, posters);
  }
}
