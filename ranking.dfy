/**
 * The ranking step of `recommend`: find the selected title in the catalog, enumerate its row
 * of the similarity matrix, sort the (position, score) pairs by score, descending and stably,
 * and keep sorted ranks 1 to 5.
 */
module Ranking {
  import opened Wrappers

  /** One row of the movies table; the table's index labels are its positions. */
  datatype Movie = Movie(movieId: int, title: string)

  /** A similarity score. Only comparisons between scores are ever made. */
  type Score = real

  /** A pair produced by `enumerate` over a similarity row: (position, score). */
  type Candidate = (nat, Score)

  /** The number of neighbours `recommend` keeps (the slice [1:6]). */
  const TopK := 5

  /** `movies[movies["title"] == movie].index[0]`: the first position holding the title. */
  function FirstMatch(catalog: seq<Movie>, movie: string): (r: Option<nat>)
    ensures r.Some? ==> r.value < |catalog| && catalog[r.value].title == movie
    ensures r.Some? ==> forall j :: 0 <= j < r.value ==> catalog[j].title != movie
    ensures r.None? <==> forall j :: 0 <= j < |catalog| ==> catalog[j].title != movie
  {
    if catalog == [] then None
    else if catalog[0].title == movie then Some(0)
    else match FirstMatch(catalog[1..], movie)
      case None => None
      case Some(i) => Some(i + 1)
  }

  /** `list(enumerate(row))` */
  function Enumerate(row: seq<Score>): (r: seq<Candidate>)
    ensures |r| == |row|
    ensures forall i :: 0 <= i < |r| ==> r[i] == (i, row[i])
  {
    seq(|row|, i requires 0 <= i < |row| => (i, row[i]))
  }

  /** Places `c` in front of the first element whose score is at most its own. */
  function Insert(c: Candidate, r: seq<Candidate>): (s: seq<Candidate>)
    ensures multiset(s) == multiset(r) + multiset{c}
    ensures |s| == |r| + 1
  {
    if r == [] || c.1 >= r[0].1 then [c] + r
    else
      assert r == [r[0]] + r[1..];
      [r[0]] + Insert(c, r[1..])
  }

  /**
   * `sorted(s, key=lambda x: x[1], reverse=True)`, as an insertion sort that compares
   * scores only: an element goes in front of the equal-scored elements that follow it
   * in `s`, so equal scores keep their order in `s`.
   */
  function SortDesc(s: seq<Candidate>): (r: seq<Candidate>)
    ensures multiset(r) == multiset(s)
    ensures |r| == |s|
  {
    if s == [] then []
    else
      assert s == [s[0]] + s[1..];
      Insert(s[0], SortDesc(s[1..]))
  }

  /** `a` comes before `b` in the ranking: a higher score, or the same score and a lower position. */
  predicate Precedes(a: Candidate, b: Candidate)
  {
    a.1 > b.1 || (a.1 == b.1 && a.0 < b.0)
  }

  /** Ranked order: strictly by `Precedes`, i.e. descending score, ties by ascending position. */
  predicate Ordered(r: seq<Candidate>)
  {
    forall i, j :: 0 <= i < j < |r| ==> Precedes(r[i], r[j])
  }

  /** The order `enumerate` produces. */
  predicate AscendingPositions(s: seq<Candidate>)
  {
    forall i, j :: 0 <= i < j < |s| ==> s[i].0 < s[j].0
  }

  /** `distances` in `recommend`: the sorted enumeration of one similarity row. */
  function Distances(row: seq<Score>): seq<Candidate>
  {
    SortDesc(Enumerate(row))
  }

  /** `distances[1:6]`, with Python's slice semantics on short lists. */
  function Neighbours(distances: seq<Candidate>): (r: seq<Candidate>)
    ensures |r| == if distances == [] then 0 else Min(TopK, |distances| - 1)
    ensures forall k :: 0 <= k < |r| ==> r[k] == distances[k + 1]
  {
    if |distances| <= 1 then [] else distances[1..Min(TopK + 1, |distances|)]
  }

  lemma {:induction false} InsertOrdered(c: Candidate, r: seq<Candidate>)
    requires Ordered(r)
    requires forall k :: 0 <= k < |r| ==> c.0 < r[k].0
    ensures Ordered(Insert(c, r))
  {
    if r == [] || c.1 >= r[0].1 {
    } else {
      var t := Insert(c, r[1..]);
      InsertOrdered(c, r[1..]);
      forall x | x in multiset(t)
        ensures Precedes(r[0], x)
      {
        assert x in multiset(r[1..]) + multiset{c};
        if x != c {
          assert x in r[1..];
        }
      }
      forall j | 0 <= j < |t|
        ensures Precedes(r[0], t[j])
      {
        assert t[j] in multiset(t);
      }
    }
  }

  /** Sorting an enumeration gives a ranked permutation of it. */
  lemma {:induction false} SortDescOrdered(s: seq<Candidate>)
    requires AscendingPositions(s)
    ensures Ordered(SortDesc(s))
  {
    if s != [] {
      var t := SortDesc(s[1..]);
      SortDescOrdered(s[1..]);
      forall k | 0 <= k < |t|
        ensures s[0].0 < t[k].0
      {
        assert t[k] in multiset(s[1..]);
        var i :| 0 <= i < |s[1..]| && s[1..][i] == t[k];
        assert s[i + 1] == t[k];
      }
      InsertOrdered(s[0], t);
    }
  }

  /** The head of a ranked sequence precedes every other element of it. */
  lemma OrderedHead(r: seq<Candidate>, x: Candidate)
    requires Ordered(r) && x in r
    ensures x == r[0] || Precedes(r[0], x)
  {
    var j :| 0 <= j < |r| && r[j] == x;
  }

  lemma TailMultiset(r: seq<Candidate>)
    requires r != []
    ensures multiset(r[1..]) == multiset(r) - multiset{r[0]}
  {
    assert r == [r[0]] + r[1..];
  }

  /** Two ranked sequences with the same elements start with the same element. */
  lemma SameHead(r1: seq<Candidate>, r2: seq<Candidate>)
    requires Ordered(r1) && Ordered(r2) && r1 != []
    requires multiset(r1) == multiset(r2)
    ensures r2 != [] && r1[0] == r2[0]
  {
    assert r1[0] in multiset(r2);
    assert r2[0] in multiset(r1);
    OrderedHead(r2, r1[0]);
    OrderedHead(r1, r2[0]);
  }

  /** A ranked permutation is unique: two ranked sequences with the same elements are equal. */
  lemma {:induction false} OrderedUnique(r1: seq<Candidate>, r2: seq<Candidate>)
    requires Ordered(r1) && Ordered(r2)
    requires multiset(r1) == multiset(r2)
    ensures r1 == r2
  {
    if r1 == [] {
      assert |multiset(r2)| == 0;
    } else {
      SameHead(r1, r2);
      TailMultiset(r1);
      TailMultiset(r2);
      OrderedUnique(r1[1..], r2[1..]);
      assert r1 == [r1[0]] + r1[1..];
      assert r2 == [r2[0]] + r2[1..];
    }
  }

  /**
   * `distances` is a permutation of the enumerated row, non-increasing in score, with equal
   * scores in ascending position order; and it is the only sequence with these properties.
   */
  lemma DistancesRanked(row: seq<Score>, r: seq<Candidate>)
    ensures multiset(Distances(row)) == multiset(Enumerate(row))
    ensures forall i, j :: 0 <= i < j < |row| ==> Distances(row)[i].1 >= Distances(row)[j].1
    ensures forall i, j :: 0 <= i < j < |row| && Distances(row)[i].1 == Distances(row)[j].1 ==>
                             Distances(row)[i].0 < Distances(row)[j].0
    ensures r == Distances(row) <==> Ordered(r) && multiset(r) == multiset(Enumerate(row))
  {
    SortDescOrdered(Enumerate(row));
    if Ordered(r) && multiset(r) == multiset(Enumerate(row)) {
      OrderedUnique(r, Distances(row));
    }
  }

  /** Every ranked entry is some position of the row with its own score, and every position appears. */
  lemma DistancesEntries(row: seq<Score>)
    ensures |Distances(row)| == |row|
    ensures forall k :: 0 <= k < |row| ==>
              Distances(row)[k].0 < |row| && Distances(row)[k].1 == row[Distances(row)[k].0]
    ensures forall j :: 0 <= j < |row| ==> (j, row[j]) in Distances(row)
  {
    var d, e := Distances(row), Enumerate(row);
    forall k | 0 <= k < |row|
      ensures d[k].0 < |row| && d[k].1 == row[d[k].0]
    {
      assert d[k] in multiset(e);
      var i :| 0 <= i < |e| && e[i] == d[k];
    }
    forall j | 0 <= j < |row|
      ensures (j, row[j]) in d
    {
      assert e[j] in multiset(d);
    }
  }

  /**
   * `recommend` drops sorted rank 0 on the assumption that it is the selected movie. That holds
   * exactly when the selected score beats every earlier position strictly and every later one
   * at least weakly (a later tie sorts after it, an earlier tie before it).
   */
  lemma SelfAtTopIff(row: seq<Score>, p: nat)
    requires p < |row|
    ensures Distances(row)[0].0 == p <==>
              (forall j :: 0 <= j < p ==> row[j] < row[p]) &&
              (forall j :: p < j < |row| ==> row[j] <= row[p])
  {
    var d := Distances(row);
    DistancesEntries(row);
    SortDescOrdered(Enumerate(row));
    if d[0].0 == p {
      forall j | 0 <= j < |row| && j != p
        ensures (j < p ==> row[j] < row[p]) && (p < j ==> row[j] <= row[p])
      {
        var k :| 0 <= k < |d| && d[k] == (j, row[j]);
        assert Precedes(d[0], d[k]);
      }
    } else {
      var k :| 0 <= k < |d| && d[k] == (p, row[p]);
      assert Precedes(d[0], d[k]);
    }
  }

  /**
   * The selected position `p`, at sorted rank `i`, is among the neighbours exactly when
   * 1 <= i <= 5: it is left out when it sorts to rank 0, and also when it sorts below rank 5.
   */
  lemma SelfInNeighboursIff(row: seq<Score>, p: nat, i: nat)
    requires p < |row| && i < |row| && Distances(row)[i].0 == p
    ensures (exists k :: 0 <= k < |Neighbours(Distances(row))| && Neighbours(Distances(row))[k].0 == p)
              <==> 1 <= i <= TopK
  {
    var d := Distances(row);
    var n := Neighbours(d);
    DistancesEntries(row);
    SortDescOrdered(Enumerate(row));
    if 1 <= i <= TopK {
      assert n[i - 1].0 == p;
    }
    forall k | 0 <= k < |n| && n[k].0 == p
      ensures k + 1 == i
    {
      assert d[k + 1] == d[i];
    }
  }

  /** A row whose scores strictly decrease with position is ranked in position order. */
  lemma DecreasingRowRanksInOrder(row: seq<Score>)
    requires forall i, j :: 0 <= i < j < |row| ==> row[i] > row[j]
    ensures Distances(row) == Enumerate(row)
    ensures |row| >= TopK + 1 ==> Neighbours(Distances(row)) == Enumerate(row)[1..TopK + 1]
  {
    DistancesRanked(row, Enumerate(row));
  }

  /** The candidates whose position is not `p`, in their original order. */
  function Others(s: seq<Candidate>, p: nat): (r: seq<Candidate>)
    ensures forall k :: 0 <= k < |r| ==> r[k].0 != p && r[k] in s
  {
    if s == [] then []
    else if s[0].0 == p then Others(s[1..], p)
    else [s[0]] + Others(s[1..], p)
  }

  lemma {:induction false} OthersKeepsAll(s: seq<Candidate>, p: nat)
    requires forall k :: 0 <= k < |s| ==> s[k].0 != p
    ensures Others(s, p) == s
  {
    if s != [] {
      OthersKeepsAll(s[1..], p);
    }
  }

  lemma {:induction false} OthersAscending(s: seq<Candidate>, p: nat)
    requires AscendingPositions(s)
    ensures AscendingPositions(Others(s, p))
  {
    if s != [] {
      OthersAscending(s[1..], p);
      var t := Others(s[1..], p);
      forall k | 0 <= k < |t|
        ensures s[0].0 < t[k].0
      {
        var i :| 0 <= i < |s[1..]| && s[1..][i] == t[k];
        assert s[i + 1] == t[k];
      }
    }
  }

  /** In an enumeration, dropping position `p` removes exactly the one pair `s[i]` at `p`. */
  lemma {:induction false} OthersRemovesOne(s: seq<Candidate>, p: nat, i: nat)
    requires AscendingPositions(s)
    requires i < |s| && s[i].0 == p
    ensures multiset(Others(s, p)) == multiset(s) - multiset{s[i]}
    ensures |Others(s, p)| == |s| - 1
  {
    assert s == [s[0]] + s[1..];
    if i == 0 {
      OthersKeepsAll(s[1..], p);
    } else {
      OthersRemovesOne(s[1..], p, i - 1);
    }
  }

  /**
   * The ranking that leaves the selected position out before sorting, then keeps
   * the first five.
   */
  function TopOthers(row: seq<Score>, p: nat): seq<Candidate>
  {
    var ranked := SortDesc(Others(Enumerate(row), p));
    ranked[..Min(TopK, |ranked|)]
  }

  /** Sorting the other positions ranks every pair of the row except the selected one. */
  lemma OthersRanked(row: seq<Score>, p: nat)
    requires p < |row|
    ensures |SortDesc(Others(Enumerate(row), p))| == |row| - 1
    ensures Ordered(SortDesc(Others(Enumerate(row), p)))
    ensures multiset(SortDesc(Others(Enumerate(row), p))) == multiset(Enumerate(row)) - multiset{(p, row[p])}
  {
    OthersRemovesOne(Enumerate(row), p, p);
    OthersAscending(Enumerate(row), p);
    SortDescOrdered(Others(Enumerate(row), p));
  }

  /** In a ranked sequence, every element of a prefix precedes every element past it. */
  lemma PrefixPrecedesRest(o: seq<Candidate>, n: nat, x: Candidate)
    requires Ordered(o) && n <= |o|
    requires x in o && x !in o[..n]
    ensures forall k :: 0 <= k < n ==> Precedes(o[k], x)
  {
    forall k | 0 <= k < n
      ensures o[k] != x
    {
      assert o[..n][k] == o[k];
    }
  }

  /**
   * The self-excluding ranking never contains the selected position and holds min(5, n - 1) entries
   * in ranked order.
   */
  lemma TopOthersExcludesSelf(row: seq<Score>, p: nat)
    requires p < |row|
    ensures |TopOthers(row, p)| == Min(TopK, |row| - 1)
    ensures forall k :: 0 <= k < |TopOthers(row, p)| ==> TopOthers(row, p)[k].0 != p
    ensures Ordered(TopOthers(row, p))
    ensures forall k :: 0 <= k < |TopOthers(row, p)| ==>
              TopOthers(row, p)[k].0 < |row| && TopOthers(row, p)[k].1 == row[TopOthers(row, p)[k].0]
  {
    var e := Enumerate(row);
    var o := SortDesc(Others(e, p));
    OthersRanked(row, p);
    var top := o[..Min(TopK, |o|)];
    assert top == TopOthers(row, p);
    forall k | 0 <= k < |top|
      ensures top[k].0 != p && top[k].0 < |row| && top[k].1 == row[top[k].0]
    {
      assert o[k] in multiset(o);
      assert o[k] in multiset(e);
      var i :| 0 <= i < |e| && e[i] == o[k];
    }
  }

  /** Every other position the self-excluding ranking leaves out ranks below all that it keeps. */
  lemma TopOthersIsTop(row: seq<Score>, p: nat, j: nat)
    requires j < |row| && j != p && p < |row|
    requires (j, row[j]) !in TopOthers(row, p)
    ensures forall k :: 0 <= k < |TopOthers(row, p)| ==> Precedes(TopOthers(row, p)[k], (j, row[j]))
  {
    var e := Enumerate(row);
    var o := SortDesc(Others(e, p));
    OthersRanked(row, p);
    assert e[j] in multiset(o);
    PrefixPrecedesRest(o, Min(TopK, |o|), (j, row[j]));
  }

  /** Removing the head of a ranked sequence leaves the ranked sequence of the remaining elements. */
  lemma RankedTail(d: seq<Candidate>, o: seq<Candidate>)
    requires Ordered(d) && Ordered(o) && d != []
    requires multiset(o) == multiset(d) - multiset{d[0]}
    ensures o == d[1..]
  {
    assert d == [d[0]] + d[1..];
    assert multiset(d[1..]) == multiset(d) - multiset{d[0]};
    OrderedUnique(d[1..], o);
  }

  /** Removing a non-head element `c` of a ranked sequence leaves its head in front. */
  lemma RankedHeadSurvives(d: seq<Candidate>, o: seq<Candidate>, c: Candidate)
    requires Ordered(d) && Ordered(o)
    requires c in d && d[0] != c
    requires multiset(o) == multiset(d) - multiset{c}
    ensures |d| >= 2 && o != [] && o[0] == d[0] && d[1] != d[0]
  {
    var i :| 0 <= i < |d| && d[i] == c;
    assert d[0] in multiset(o);
    assert o[0] in multiset(o);
    assert o[0] in multiset(d);
    OrderedHead(o, d[0]);
    OrderedHead(d, o[0]);
    assert Precedes(d[0], d[1]);
  }

  /**
   * `recommend`'s neighbours equal the self-excluding ranking exactly when the selected position
   * sorts to rank 0; otherwise the true nearest neighbour at rank 0 is dropped.
   */
  lemma NeighboursAgreeIff(row: seq<Score>, p: nat)
    requires p < |row|
    ensures Neighbours(Distances(row)) == TopOthers(row, p) <==> Distances(row)[0].0 == p
    ensures Distances(row)[0].0 != p ==>
              TopOthers(row, p) != [] && TopOthers(row, p)[0] == Distances(row)[0] &&
              Distances(row)[0] !in Neighbours(Distances(row))
  {
    if Distances(row)[0].0 == p {
      NeighboursWhenSelfFirst(row, p);
    } else {
      NeighboursWhenSelfNotFirst(row, p);
    }
  }

  lemma NeighboursWhenSelfFirst(row: seq<Score>, p: nat)
    requires p < |row| && Distances(row)[0].0 == p
    ensures Neighbours(Distances(row)) == TopOthers(row, p)
  {
    var d := Distances(row);
    var o := SortDesc(Others(Enumerate(row), p));
    OthersRanked(row, p);
    SortDescOrdered(Enumerate(row));
    DistancesEntries(row);
    assert d[0] == (p, row[p]);
    RankedTail(d, o);
    NeighboursOfTail(d);
  }

  lemma NeighboursOfTail(d: seq<Candidate>)
    requires d != []
    ensures Neighbours(d) == d[1..][..Min(TopK, |d| - 1)]
  {
  }

  lemma NeighboursWhenSelfNotFirst(row: seq<Score>, p: nat)
    requires p < |row| && Distances(row)[0].0 != p
    ensures Neighbours(Distances(row)) != TopOthers(row, p)
    ensures TopOthers(row, p) != [] && TopOthers(row, p)[0] == Distances(row)[0]
    ensures Distances(row)[0] !in Neighbours(Distances(row))
  {
    var d := Distances(row);
    var o := SortDesc(Others(Enumerate(row), p));
    OthersRanked(row, p);
    SortDescOrdered(Enumerate(row));
    DistancesEntries(row);
    RankedHeadSurvives(d, o, (p, row[p]));
    assert TopOthers(row, p)[0] == d[0];
    assert Neighbours(d)[0] == d[1];
    var n := Neighbours(d);
    forall k | 0 <= k < |n|
      ensures n[k] != d[0]
    {
      assert n[k] == d[k + 1];
      assert Precedes(d[0], d[k + 1]);
    }
  }

  /**
   * Two movies with identical feature vectors tie at the top score; if the selected one is the
   * later of the two, the earlier sorts to rank 0 and is dropped, and the selected movie is
   * recommended to itself.
   */
  lemma SelfLeakExample()
    ensures Neighbours(Distances([1.0, 1.0])) == [(1, 1.0)]
    ensures TopOthers([1.0, 1.0], 1) == [(0, 1.0)]
  {
    var row := [1.0, 1.0];
    assert Enumerate(row) == [(0, 1.0), (1, 1.0)];
    assert Enumerate(row)[1..] == [(1, 1.0)];
    assert [(1, 1.0)][1..] == [];
    assert Others(Enumerate(row), 1) == [(0, 1.0)];
  }
}
