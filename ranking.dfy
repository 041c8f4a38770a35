/**
 * SQL's `ORDER BY <key> DESC [, <tie-break> DESC] LIMIT n` over a set of result rows.
 * SQLite leaves the order of rows with equal keys unspecified, so the specification
 * (IsTopK) is relational; TopK is one result that meets it.
 */
module Ranking {

  /** A sort key: compared on `primary`, then on `secondary`, both descending. */
  datatype Rank = Rank(primary: int, secondary: int)

  /** `a` may be listed before `b`. */
  predicate AtLeast(a: Rank, b: Rank)
  {
    a.primary > b.primary || (a.primary == b.primary && a.secondary >= b.secondary)
  }

  /** Number of rows `LIMIT limit` keeps out of `n`; SQLite reads a negative limit as "no limit". */
  function LimitOf(limit: int, n: nat): (k: nat)
    ensures k <= n
    ensures limit < 0 ==> k == n
    ensures 0 <= limit ==> k == if limit < n then limit else n
  {
    if 0 <= limit < n then limit else n
  }

  ghost predicate IsMaxIn<T>(m: T, s: set<T>, rank: T -> Rank)
  {
    m in s && forall y :: y in s ==> AtLeast(rank(m), rank(y))
  }

  /**
   * `r` is what the query may return for candidate rows `cands`: distinct candidates in
   * non-increasing rank order, as many as the limit allows, and no candidate left out
   * ranks above one that was kept.
   */
  ghost predicate IsTopK<T>(r: seq<T>, cands: set<T>, rank: T -> Rank, limit: int)
  {
    && |r| == LimitOf(limit, |cands|)
    && (forall i :: 0 <= i < |r| ==> r[i] in cands)
    && (forall i, j :: 0 <= i < j < |r| ==> r[i] != r[j])
    && (forall i, j :: 0 <= i < j < |r| ==> AtLeast(rank(r[i]), rank(r[j])))
    && (forall i, y :: 0 <= i < |r| && y in cands && y !in r ==> AtLeast(rank(r[i]), rank(y)))
  }

  /** Every non-empty finite set of rows has a row of highest rank. */
  lemma {:induction false} MaxExists<T>(s: set<T>, rank: T -> Rank)
    requires s != {}
    ensures exists m :: IsMaxIn(m, s, rank)
    decreases s
  {
    var x :| x in s;
    if s - {x} == {} {
      assert s == {x};
      assert IsMaxIn(x, s, rank);
    } else {
      MaxExists(s - {x}, rank);
      var m :| IsMaxIn(m, s - {x}, rank);
      if AtLeast(rank(m), rank(x)) {
        assert IsMaxIn(m, s, rank);
      } else {
        assert IsMaxIn(x, s, rank);
      }
    }
  }

  /** The rows the query returns: repeatedly take a highest-ranked remaining row. */
  ghost function TopK<T>(cands: set<T>, rank: T -> Rank, limit: int): (r: seq<T>)
    ensures IsTopK(r, cands, rank, limit)
    decreases cands
  {
    if cands == {} || limit == 0 then []
    else
      MaxExists(cands, rank);
      var m :| IsMaxIn(m, cands, rank);
      var rest := TopK(cands - {m}, rank, if limit < 0 then limit else limit - 1);
      assert m !in rest;
      [m] + rest
  }

  /** Without a limit every candidate row is returned. */
  lemma AllReturned<T>(r: seq<T>, cands: set<T>, rank: T -> Rank, limit: int)
    requires IsTopK(r, cands, rank, limit)
    requires limit < 0 || |cands| <= limit
    ensures forall y :: y in cands <==> y in r
  {
    var kept := set i | 0 <= i < |r| :: r[i];
    assert forall y :: y in r <==> y in kept by {
      forall y | y in r ensures y in kept {
        var i :| 0 <= i < |r| && r[i] == y;
      }
    }
    DistinctCard(r);
    var missed := cands - kept;
    assert cands == kept + missed && kept !! missed;
    assert |cands| == |kept| + |missed|;
    assert missed == {};
  }

  /** A sequence without repetitions has as many distinct elements as it has positions. */
  lemma {:induction false} DistinctCard<T>(r: seq<T>)
    requires forall i, j :: 0 <= i < j < |r| ==> r[i] != r[j]
    ensures |set i | 0 <= i < |r| :: r[i]| == |r|
  {
    if r != [] {
      var last := |r| - 1;
      DistinctCard(r[..last]);
      var front := set i | 0 <= i < last :: r[..last][i];
      var all := set i | 0 <= i < |r| :: r[i];
      assert all == front + {r[last]};
      assert r[last] !in front;
    }
  }
}
