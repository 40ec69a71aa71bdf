/**
 * The output stage of `recommend` (app.py:47-67): look the title up, rank its
 * similarity row, and walk the ten candidates, keeping those with a truthy
 * `movie_id` and fetching a poster for each.
 */
module Recommender {
  import opened Wrappers
  import opened Catalog
  import opened Ranker
  import opened Poster

  /** The sentinel name returned for an unknown title (app.py:50). */
  const NotFoundMessage: string := "Movie not found in database."

  /**
   * The first `n` candidates whose catalog record has a truthy `movie_id`, in
   * candidate order: what the loop of `recommend` keeps after `n` steps.
   */
  function Kept(catalog: seq<Movie>, cands: seq<Scored>, n: nat): (kept: seq<Scored>)
    requires n <= |cands|
    requires forall k :: 0 <= k < |cands| ==> cands[k].index < |catalog|
    ensures |kept| <= n
    ensures forall j :: 0 <= j < |kept| ==> kept[j].index < |catalog| && HasId(catalog[kept[j].index])
  {
    if n == 0 then []
    else
      Kept(catalog, cands, n - 1) +
      (if HasId(catalog[cands[n - 1].index]) then [cands[n - 1]] else [])
  }

  /**
   * A candidate is kept exactly when it is among the first `n` and its record
   * has a truthy `movie_id`: nothing else is dropped and nothing is added.
   */
  lemma {:induction false} KeptMembers(catalog: seq<Movie>, cands: seq<Scored>, n: nat)
    requires n <= |cands|
    requires forall k :: 0 <= k < |cands| ==> cands[k].index < |catalog|
    ensures forall x :: x in Kept(catalog, cands, n) <==> x in cands[..n] && HasId(catalog[x.index])
  {
    if n > 0 {
      KeptMembers(catalog, cands, n - 1);
      assert cands[..n] == cands[..n - 1] + [cands[n - 1]];
    }
  }

  /** The kept candidates keep the candidates' strict ranking order. */
  lemma {:induction false} KeptOrder(catalog: seq<Movie>, cands: seq<Scored>, n: nat)
    requires n <= |cands|
    requires forall k :: 0 <= k < |cands| ==> cands[k].index < |catalog|
    requires forall p, q :: 0 <= p < q < |cands| ==> Ahead(cands[p], cands[q])
    ensures forall k, l :: 0 <= k < l < |Kept(catalog, cands, n)| ==>
      Ahead(Kept(catalog, cands, n)[k], Kept(catalog, cands, n)[l])
  {
    if n > 0 {
      KeptOrder(catalog, cands, n - 1);
      KeptMembers(catalog, cands, n - 1);
      var prev := Kept(catalog, cands, n - 1);
      forall k | 0 <= k < |prev| ensures Ahead(prev[k], cands[n - 1]) {
        assert prev[k] in cands[..n - 1];
        var p :| 0 <= p < n - 1 && cands[p] == prev[k];
      }
      var kept := Kept(catalog, cands, n);
      assert kept == prev + (if HasId(catalog[cands[n - 1].index]) then [cands[n - 1]] else []);
      forall k, l | 0 <= k < l < |kept| ensures Ahead(kept[k], kept[l]) {
        if l < |prev| {
          assert kept[k] == prev[k] && kept[l] == prev[l];
          assert Ahead(prev[k], prev[l]);
        } else {
          assert kept[k] == prev[k] && kept[l] == cands[n - 1];
          assert Ahead(prev[k], cands[n - 1]);
        }
      }
    }
  }

  /** The candidates `recommend` reports for the query at catalog position `q`. */
  function Recommended(catalog: seq<Movie>, similarity: seq<seq<int>>, q: nat): (kept: seq<Scored>)
    requires Consistent(catalog, similarity) && q < |catalog|
    ensures |kept| <= 10
    ensures forall k :: 0 <= k < |kept| ==> kept[k].index < |catalog| && HasId(catalog[kept[k].index])
  {
    var cands := Candidates(similarity[q]);
    Kept(catalog, cands, |cands|)
  }

  /**
   * `recommend(movie)`. For an unknown title the result is the sentinel name
   * and no poster. Otherwise both lists follow the recommended candidates in
   * order: the k-th name is the title of the k-th one and the k-th poster is
   * the URL fetched for its `movie_id`.
   */
  method Recommend(catalog: seq<Movie>, similarity: seq<seq<int>>, title: string, tmdb: int -> Response)
    returns (names: seq<string>, posters: seq<string>)
    requires Consistent(catalog, similarity)
    ensures FindTitle(catalog, title).None? ==> names == [NotFoundMessage] && posters == []
    ensures FindTitle(catalog, title).Some? ==>
      var kept := Recommended(catalog, similarity, FindTitle(catalog, title).value);
      |names| == |kept| && |posters| == |kept| &&
      forall k :: 0 <= k < |kept| ==>
        names[k] == catalog[kept[k].index].title &&
        posters[k] == PosterUrl(tmdb(catalog[kept[k].index].movieId.value))
  {
    var found := FindTitle(catalog, title);
    if found.None? {
      return [NotFoundMessage], [];
    }
    var movieIndex := found.value;
    var distances := similarity[movieIndex];
    var moviesList := Candidates(distances);
    names, posters := [], [];
    ghost var kept: seq<Scored> := [];
    for i := 0 to |moviesList|
      invariant kept == Kept(catalog, moviesList, i)
      invariant |names| == |kept| && |posters| == |kept|
      invariant forall k :: 0 <= k < |kept| ==>
        names[k] == catalog[kept[k].index].title &&
        posters[k] == PosterUrl(tmdb(catalog[kept[k].index].movieId.value))
    {
      var movie := catalog[moviesList[i].index];
      if HasId(movie) {
        posters := posters + [PosterUrl(tmdb(movie.movieId.value))];
        names := names + [movie.title];
        kept := kept + [moviesList[i]];
      }
    }
  }

  /**
   * The recommendations are exactly the candidates (ranks 1 to 10) whose
   * record has a truthy `movie_id`.
   */
  lemma RecommendedMembers(catalog: seq<Movie>, similarity: seq<seq<int>>, q: nat)
    requires Consistent(catalog, similarity) && q < |catalog|
    ensures forall x :: x in Recommended(catalog, similarity, q) <==>
      x in Candidates(similarity[q]) && HasId(catalog[x.index])
  {
    var cands := Candidates(similarity[q]);
    KeptMembers(catalog, cands, |cands|);
    assert cands[..|cands|] == cands;
  }

  /**
   * The recommendations follow ranking order (higher score first, equal scores
   * by ascending catalog position), so no record is recommended twice.
   */
  lemma RecommendedOrder(catalog: seq<Movie>, similarity: seq<seq<int>>, q: nat)
    requires Consistent(catalog, similarity) && q < |catalog|
    ensures var kept := Recommended(catalog, similarity, q);
      forall k, l :: 0 <= k < l < |kept| ==>
        Ahead(kept[k], kept[l]) && kept[k].index != kept[l].index
  {
    var cands := Candidates(similarity[q]);
    CandidatesStrictlyRanked(similarity[q]);
    KeptOrder(catalog, cands, |cands|);
    RecommendedMembers(catalog, similarity, q);
    var kept := Recommended(catalog, similarity, q);
    forall k | 0 <= k < |kept| ensures kept[k].score == similarity[q][kept[k].index] {
      assert kept[k] in cands;
    }
  }

  /**
   * A found title can yield no recommendation at all: the single candidate has
   * `movie_id` 0 and nothing further down the ranking replaces it.
   */
  lemma FoundTitleCanYieldNothing()
    ensures var catalog := [Movie("A", Some(1)), Movie("B", Some(0))];
      var similarity := [[9, 1], [1, 9]];
      Consistent(catalog, similarity) &&
      FindTitle(catalog, "A") == Some(0) &&
      Recommended(catalog, similarity, 0) == []
  {
  }

  /**
   * When the query is recommended to itself: its own pair must sit at ranks 1
   * to 10 of its row, which happens only when some other movie is ranked
   * before it, and its record must have a truthy `movie_id`.
   */
  lemma QueryRecommendedIff(catalog: seq<Movie>, similarity: seq<seq<int>>, q: nat)
    requires Consistent(catalog, similarity) && q < |catalog|
    ensures var row := similarity[q];
      Scored(q, row[q]) in Recommended(catalog, similarity, q) <==>
        && HasId(catalog[q])
        && (exists p :: 1 <= p <= 10 && p < |row| && Ranking(row)[p] == Scored(q, row[q]))
    ensures var row := similarity[q];
      Scored(q, row[q]) in Recommended(catalog, similarity, q) ==>
        exists j :: 0 <= j < |row| && Ahead(Scored(j, row[j]), Scored(q, row[q]))
  {
    var row := similarity[q];
    var x := Scored(q, row[q]);
    var c := Candidates(row);
    RecommendedMembers(catalog, similarity, q);
    if x in c {
      var k :| 0 <= k < |c| && c[k] == x;
      assert Ranking(row)[k + 1] == x;
    }
    if exists p :: 1 <= p <= 10 && p < |row| && Ranking(row)[p] == x {
      var p :| 1 <= p <= 10 && p < |row| && Ranking(row)[p] == x;
      assert c[p - 1] == x;
    }
    if x in Recommended(catalog, similarity, q) {
      var k :| 0 <= k < |c| && c[k] == x;
      assert Ranking(row)[k + 1] == x;
      assert Ranking(row)[0].index != q;
      RankZeroIff(row, q);
    }
  }

  /**
   * An instance: the query is recommended to itself when another movie scores
   * higher against it, since rank 0 is removed by position.
   */
  lemma QueryCanRecommendItself()
    ensures var catalog := [Movie("A", Some(1)), Movie("B", Some(2))];
      var similarity := [[1, 5], [5, 1]];
      Consistent(catalog, similarity) &&
      FindTitle(catalog, "A") == Some(0) &&
      Recommended(catalog, similarity, 0) == [Scored(0, 1)]
  {
  }
}
