/**
 * The ranking stage of `recommend` (app.py:56): every position of the query's
 * similarity row paired with its score, sorted by descending score with a
 * stable sort, and ranks 1 to 10 taken from the result.
 */
module Ranker {

  /** One `(index, score)` pair produced by `enumerate` over a similarity row. */
  datatype Scored = Scored(index: nat, score: int)

  /**
   * `a` is ranked strictly before `b`: a higher score, or the same score and a
   * lower index. A stable descending sort of an `enumerate`d row keeps equal
   * scores in their original, ascending index order, so this is the order it
   * produces.
   */
  predicate Ahead(a: Scored, b: Scored) {
    a.score > b.score || (a.score == b.score && a.index < b.index)
  }

  /** No element is ranked strictly before one that precedes it. */
  predicate Ranked(r: seq<Scored>) {
    forall p, q :: 0 <= p < q < |r| ==> !Ahead(r[q], r[p])
  }

  /** `list(enumerate(row))`. */
  function Enumerate(row: seq<int>): seq<Scored> {
    seq(|row|, i requires 0 <= i < |row| => Scored(i, row[i]))
  }

  /** Inserts `x` in front of the first element it is ranked before. */
  function Insert(x: Scored, s: seq<Scored>): seq<Scored> {
    if s == [] || Ahead(x, s[0]) then [x] + s
    else [s[0]] + Insert(x, s[1..])
  }

  /** Insertion sort under `Ahead`. */
  function Sort(s: seq<Scored>): seq<Scored> {
    if s == [] then [] else Insert(s[0], Sort(s[1..]))
  }

  lemma {:induction false} InsertPermutes(x: Scored, s: seq<Scored>)
    ensures multiset(Insert(x, s)) == multiset(s) + multiset{x}
  {
    if s == [] || Ahead(x, s[0]) {
    } else {
      InsertPermutes(x, s[1..]);
      assert s == [s[0]] + s[1..];
    }
  }

  lemma {:induction false} InsertRanked(x: Scored, s: seq<Scored>)
    requires Ranked(s)
    ensures Ranked(Insert(x, s))
  {
    if s == [] || Ahead(x, s[0]) {
    } else {
      var t := Insert(x, s[1..]);
      assert Ranked(s[1..]) by {
        forall p, q | 0 <= p < q < |s[1..]| ensures !Ahead(s[1..][q], s[1..][p]) {
          assert s[1..][q] == s[q + 1] && s[1..][p] == s[p + 1];
        }
      }
      InsertRanked(x, s[1..]);
      InsertPermutes(x, s[1..]);
      forall q | 0 <= q < |t| ensures !Ahead(t[q], s[0]) {
        assert t[q] in multiset(t);
        if t[q] != x {
          assert t[q] in multiset(s[1..]);
          var k :| 0 <= k < |s[1..]| && s[1..][k] == t[q];
          assert s[k + 1] == t[q];
        }
      }
      assert Insert(x, s) == [s[0]] + t;
    }
  }

  lemma {:induction false} SortPermutes(s: seq<Scored>)
    ensures multiset(Sort(s)) == multiset(s)
  {
    if s != [] {
      SortPermutes(s[1..]);
      InsertPermutes(s[0], Sort(s[1..]));
      assert s == [s[0]] + s[1..];
    }
  }

  lemma {:induction false} SortRanked(s: seq<Scored>)
    ensures Ranked(Sort(s))
  {
    if s != [] {
      SortRanked(s[1..]);
      InsertRanked(s[0], Sort(s[1..]));
    }
  }

  /** A sequence without repeated elements holds each value at most once. */
  lemma {:induction false} DistinctAtMostOnce(s: seq<Scored>, e: Scored)
    requires forall p, q :: 0 <= p < q < |s| ==> s[p] != s[q]
    ensures multiset(s)[e] <= 1
  {
    if s != [] {
      assert s == [s[0]] + s[1..];
      DistinctAtMostOnce(s[1..], e);
      if s[0] == e {
        assert e !in s[1..];
      }
    }
  }

  /** A value held twice is counted twice. */
  lemma RepeatedCountsTwice(s: seq<Scored>, p: nat, q: nat)
    requires p < q < |s| && s[p] == s[q]
    ensures multiset(s)[s[p]] >= 2
  {
    assert s == s[..q] + s[q..];
    assert s[p] in s[..q];
    assert s[q] in s[q..];
  }

  /**
   * The ranked row: `sorted(enumerate(row), key=score, reverse=True)`.
   * It holds every `(index, score)` pair of the row once, scores never
   * increase along it, and equal scores keep ascending index order.
   */
  function Ranking(row: seq<int>): (r: seq<Scored>)
    ensures |r| == |row|
    ensures forall p :: 0 <= p < |r| ==> r[p].index < |row| && r[p].score == row[r[p].index]
    ensures forall p, q :: 0 <= p < q < |r| ==> r[p].score >= r[q].score
    ensures forall p, q :: 0 <= p < q < |r| && r[p].score == r[q].score ==> r[p].index < r[q].index
  {
    var e := Enumerate(row);
    SortPermutes(e);
    SortRanked(e);
    var r := Sort(e);
    assert |r| == |multiset(r)| == |multiset(e)| == |e|;
    forall p | 0 <= p < |r| ensures r[p].index < |row| && r[p].score == row[r[p].index] {
      assert r[p] in multiset(e);
    }
    forall p, q | 0 <= p < q < |r| ensures r[p] != r[q] {
      if r[p] == r[q] {
        RepeatedCountsTwice(r, p, q);
        DistinctAtMostOnce(e, r[p]);
      }
    }
    r
  }

  /** The ranking rearranges the row's `(index, score)` pairs and nothing else. */
  lemma RankingPermutes(row: seq<int>)
    ensures multiset(Ranking(row)) == multiset(Enumerate(row))
  {
    SortPermutes(Enumerate(row));
  }

  /**
   * Any arrangement of the row's pairs that is `Ranked` is the ranking: the
   * order a stable descending sort must produce is unique.
   */
  lemma {:induction false} RankedPermutationUnique(a: seq<Scored>, b: seq<Scored>)
    requires multiset(a) == multiset(b)
    requires Ranked(a) && Ranked(b)
    ensures a == b
  {
    assert |a| == |multiset(a)| == |multiset(b)| == |b|;
    if a != [] {
      assert a[0] in multiset(b);
      var k :| 0 <= k < |b| && b[k] == a[0];
      assert b[0] in multiset(a);
      var m :| 0 <= m < |a| && a[m] == b[0];
      assert !Ahead(a[0], b[0]) by { if k > 0 { assert !Ahead(b[k], b[0]); } }
      assert !Ahead(b[0], a[0]) by { if m > 0 { assert !Ahead(a[m], a[0]); } }
      assert a[0] == b[0];
      assert a == [a[0]] + a[1..];
      assert b == [b[0]] + b[1..];
      assert multiset(a) == multiset{a[0]} + multiset(a[1..]);
      assert multiset(b) == multiset{b[0]} + multiset(b[1..]);
      assert multiset(a[1..]) == multiset(a) - multiset{a[0]};
      assert multiset(b[1..]) == multiset(b) - multiset{b[0]};
      assert Ranked(a[1..]) by {
        forall p, q | 0 <= p < q < |a[1..]| ensures !Ahead(a[1..][q], a[1..][p]) {
          assert a[1..][q] == a[q + 1] && a[1..][p] == a[p + 1];
        }
      }
      assert Ranked(b[1..]) by {
        forall p, q | 0 <= p < q < |b[1..]| ensures !Ahead(b[1..][q], b[1..][p]) {
          assert b[1..][q] == b[q + 1] && b[1..][p] == b[p + 1];
        }
      }
      RankedPermutationUnique(a[1..], b[1..]);
    }
  }

  /**
   * Whatever stable descending sort produced `r`, as long as it rearranges the
   * row's pairs into score order with ties by ascending index, it is `Ranking(row)`.
   */
  lemma StableSortIsRanking(row: seq<int>, r: seq<Scored>)
    requires multiset(r) == multiset(Enumerate(row))
    requires forall p, q :: 0 <= p < q < |r| ==> r[p].score >= r[q].score
    requires forall p, q :: 0 <= p < q < |r| && r[p].score == r[q].score ==> r[p].index < r[q].index
    ensures r == Ranking(row)
  {
    RankingPermutes(row);
    RankedPermutationUnique(r, Ranking(row));
  }

  /**
   * The candidates `ranking[1:11]`: ranking positions 1 to 10, dropped by
   * position, so there are at most ten of them.
   */
  function Candidates(row: seq<int>): (c: seq<Scored>)
    ensures |c| == if |row| <= 1 then 0 else if |row| <= 11 then |row| - 1 else 10
    ensures forall k :: 0 <= k < |c| ==> c[k] == Ranking(row)[k + 1]
    ensures forall k :: 0 <= k < |c| ==> c[k].index < |row| && c[k].score == row[c[k].index]
  {
    var r := Ranking(row);
    if |r| <= 1 then [] else if |r| <= 11 then r[1..] else r[1..11]
  }

  /** The candidates are in strict ranking order; in particular no index repeats. */
  lemma CandidatesStrictlyRanked(row: seq<int>)
    ensures var c := Candidates(row);
      forall p, q :: 0 <= p < q < |c| ==> Ahead(c[p], c[q]) && c[p].index != c[q].index
  {
  }

  /**
   * Which pair occupies rank 0, the one the slice drops: the pair of index `q`
   * is there exactly when no other pair is ranked before it, that is, no index
   * has a higher score, and no lower index has the same score.
   */
  lemma RankZeroIff(row: seq<int>, q: nat)
    requires q < |row|
    ensures Ranking(row)[0].index == q <==>
      forall j :: 0 <= j < |row| ==> !Ahead(Scored(j, row[j]), Scored(q, row[q]))
  {
    var r := Ranking(row);
    var e := Enumerate(row);
    RankingPermutes(row);
    var x := Scored(q, row[q]);
    assert x == e[q];
    assert x in multiset(r);
    var p :| 0 <= p < |r| && r[p] == x;
    if r[0].index == q {
      forall j | 0 <= j < |row| ensures !Ahead(Scored(j, row[j]), x) {
        var y := Scored(j, row[j]);
        assert y == e[j];
        assert y in multiset(r);
        var m :| 0 <= m < |r| && r[m] == y;
        assert r[0] == x;
        if m != 0 {
          assert r[0].score >= r[m].score;
        }
      }
    } else {
      var j := r[0].index;
      assert r[0] == Scored(j, row[j]);
      assert p != 0;
      assert Ahead(r[0], r[p]);
    }
  }

  /**
   * Rank 0 is dropped by position, not by index: a query whose own score is
   * beaten by another item is itself among the candidates.
   */
  lemma QueryCanBeItsOwnCandidate()
    ensures Candidates([1, 5]) == [Scored(0, 1)]
  {
  }
}
