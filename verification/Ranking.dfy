/** Ranked results: stable sorting by descending score, and reciprocal-rank fusion. */
module Ranking {
  type Hit = (int, real)

  /** Behind every entry that scores at least as much: the sort is stable. */
  function InsertHit(x: Hit, s: seq<Hit>): seq<Hit> {
    if s == [] || s[0].1 < x.1 then [x] + s else [s[0]] + InsertHit(x, s[1..])
  }

  /** `sort(key=score, reverse=True)` */
  function SortHits(s: seq<Hit>): seq<Hit> {
    if s == [] then [] else InsertHit(s[|s| - 1], SortHits(s[..|s| - 1]))
  }

  predicate Descending(s: seq<Hit>) {
    forall i, j :: 0 <= i < j < |s| ==> s[i].1 >= s[j].1
  }

  lemma {:induction false} InsertHitPermutes(x: Hit, s: seq<Hit>)
    ensures multiset(InsertHit(x, s)) == multiset{x} + multiset(s)
    ensures |InsertHit(x, s)| == |s| + 1 && forall h :: h in InsertHit(x, s) <==> h == x || h in s
  {
    if s != [] && s[0].1 >= x.1 {
      InsertHitPermutes(x, s[1..]);
      assert s == [s[0]] + s[1..];
    }
  }

  lemma {:induction false} SortHitsMembers(s: seq<Hit>, h: Hit)
    ensures |SortHits(s)| == |s|
    ensures h in SortHits(s) <==> h in s
  {
    if s != [] {
      var front, last := s[..|s| - 1], s[|s| - 1];
      SortHitsMembers(front, h);
      InsertHitPermutes(last, SortHits(front));
      assert s == front + [last];
    }
  }

  lemma {:induction false} InsertHitBelow(x: Hit, s: seq<Hit>, bound: real)
    requires x.1 <= bound && forall i :: 0 <= i < |s| ==> s[i].1 <= bound
    ensures forall i :: 0 <= i < |InsertHit(x, s)| ==> InsertHit(x, s)[i].1 <= bound
  {
    if s != [] && s[0].1 >= x.1 {
      InsertHitBelow(x, s[1..], bound);
    }
  }

  lemma {:induction false} InsertHitSorts(x: Hit, s: seq<Hit>)
    requires Descending(s)
    ensures Descending(InsertHit(x, s))
  {
    if s != [] && s[0].1 >= x.1 {
      InsertHitSorts(x, s[1..]);
      InsertHitBelow(x, s[1..], s[0].1);
    }
  }

  lemma {:induction false} SortHitsDescend(s: seq<Hit>)
    ensures Descending(SortHits(s))
  {
    if s != [] {
      SortHitsDescend(s[..|s| - 1]);
      InsertHitSorts(s[|s| - 1], SortHits(s[..|s| - 1]));
    }
  }

  lemma {:induction false} SortHitsPermutes(s: seq<Hit>)
    ensures multiset(SortHits(s)) == multiset(s)
  {
    if s != [] {
      var front, last := s[..|s| - 1], s[|s| - 1];
      SortHitsPermutes(front);
      InsertHitPermutes(last, SortHits(front));
      assert s == front + [last];
    }
  }

  /** Sorting permutes the hits and puts them in descending order. */
  lemma SortHitsSorts(s: seq<Hit>)
    ensures Descending(SortHits(s)) && multiset(SortHits(s)) == multiset(s)
  {
    SortHitsDescend(s);
    SortHitsPermutes(s);
  }

  /** The best `n`. */
  function Best(s: seq<Hit>, n: nat): (r: seq<Hit>)
    ensures r <= s && |r| == if |s| <= n then |s| else n
  {
    if |s| <= n then s else s[..n]
  }

  lemma BestDescends(s: seq<Hit>, n: nat)
    requires Descending(s)
    ensures Descending(Best(s, n))
  {
  }

  /** What is cut off scores no more than what stays. */
  lemma BestAreBest(s: seq<Hit>, n: nat, h: Hit)
    requires Descending(s) && h in s
    ensures h in Best(s, n) || forall r <- Best(s, n) :: r.1 >= h.1
  {
    var k :| 0 <= k < |s| && s[k] == h;
    if k < |Best(s, n)| {
      assert Best(s, n)[k] == h;
    } else {
      forall r <- Best(s, n) ensures r.1 >= h.1 {
        var i :| 0 <= i < |Best(s, n)| && Best(s, n)[i] == r;
        assert s[i] == r;
      }
    }
  }

  /** The hits with score exactly `v`, in order. */
  function Ties(s: seq<Hit>, v: real): seq<Hit> {
    if s == [] then [] else (if s[0].1 == v then [s[0]] else []) + Ties(s[1..], v)
  }

  lemma {:induction false} TiesSnoc(s: seq<Hit>, x: Hit, v: real)
    ensures Ties(s + [x], v) == Ties(s, v) + if x.1 == v then [x] else []
  {
    if s == [] {
      assert s + [x] == [x] && [x][1..] == [];
    } else {
      TiesSnoc(s[1..], x, v);
      assert (s + [x])[1..] == s[1..] + [x];
    }
  }

  lemma {:induction false} NoTies(s: seq<Hit>, v: real)
    requires forall i :: 0 <= i < |s| ==> s[i].1 < v
    ensures Ties(s, v) == []
  {
    if s != [] {
      NoTies(s[1..], v);
    }
  }

  lemma {:induction false} InsertHitTies(x: Hit, s: seq<Hit>, v: real)
    requires Descending(s)
    ensures Ties(InsertHit(x, s), v) == Ties(s, v) + if x.1 == v then [x] else []
  {
    if s == [] || s[0].1 < x.1 {
      if x.1 == v {
        NoTies(s, v);
      }
      assert ([x] + s)[1..] == s;
    } else {
      InsertHitTies(x, s[1..], v);
      assert ([s[0]] + InsertHit(x, s[1..]))[1..] == InsertHit(x, s[1..]);
    }
  }

  /** Equal scores keep their order. */
  lemma {:induction false} SortHitsStable(s: seq<Hit>, v: real)
    ensures Ties(SortHits(s), v) == Ties(s, v)
  {
    if s != [] {
      var front, last := s[..|s| - 1], s[|s| - 1];
      SortHitsStable(front, v);
      SortHitsDescend(front);
      InsertHitTies(last, SortHits(front), v);
      assert s == front + [last];
      TiesSnoc(front, last, v);
    }
  }

  predicate Distinct(ids: seq<int>) {
    forall i, j :: 0 <= i < j < |ids| ==> ids[i] != ids[j]
  }

  // ---- Reciprocal-rank fusion ----------------------------------------------------------------------------------------

  const RRF_K := 60

  /** What one ranking gives to `id`; `offset` is the rank of the first entry. */
  function RankScore(ranked: seq<int>, id: int, weight: real, offset: nat): real {
    if ranked == [] then 0.0
    else
      (if ranked[0] == id then weight / (RRF_K + offset + 1) as real else 0.0)
      + RankScore(ranked[1..], id, weight, offset + 1)
  }

  function Fused(bm25: seq<int>, dense: seq<int>, bm25Weight: real, id: int): real {
    RankScore(bm25, id, bm25Weight, 0) + RankScore(dense, id, 1.0 - bm25Weight, 0)
  }

  lemma {:induction false} RankScoreSnoc(ranked: seq<int>, last: int, id: int, weight: real, offset: nat)
    ensures RankScore(ranked + [last], id, weight, offset)
            == RankScore(ranked, id, weight, offset)
               + if last == id then weight / (RRF_K + offset + |ranked| + 1) as real else 0.0
  {
    if ranked == [] {
      assert ranked + [last] == [last] && [last][1..] == [];
    } else {
      RankScoreSnoc(ranked[1..], last, id, weight, offset + 1);
      assert (ranked + [last])[1..] == ranked[1..] + [last];
    }
  }

  lemma {:induction false} RankScoreAbsent(ranked: seq<int>, id: int, weight: real, offset: nat)
    requires id !in ranked
    ensures RankScore(ranked, id, weight, offset) == 0.0
  {
    if ranked != [] {
      RankScoreAbsent(ranked[1..], id, weight, offset + 1);
    }
  }

  /** The keys of a dictionary after `ids` have been stored: a new key goes to the end, an old one keeps its place. */
  function Stored(order: seq<int>, ids: seq<int>): seq<int>
    decreases |ids|
  {
    if ids == [] then order
    else
      var before := Stored(order, ids[..|ids| - 1]);
      if ids[|ids| - 1] in before then before else before + [ids[|ids| - 1]]
  }

  /** The keys stand in the order in which they were first seen: those of the first ids come first. */
  lemma {:induction false} FirstSeenFirst(order: seq<int>, ids: seq<int>, n: nat)
    requires n <= |ids|
    ensures Stored(order, ids[..n]) <= Stored(order, ids)
    decreases |ids|
  {
    if n < |ids| {
      var front := ids[..|ids| - 1];
      assert front[..n] == ids[..n];
      FirstSeenFirst(order, front, n);
    } else {
      assert ids[..n] == ids;
    }
  }

  lemma {:induction false} StoredIs(order: seq<int>, ids: seq<int>)
    requires Distinct(order)
    ensures Distinct(Stored(order, ids))
    ensures forall id :: id in Stored(order, ids) <==> id in order || id in ids
    decreases |ids|
  {
    if ids != [] {
      var front, last := ids[..|ids| - 1], ids[|ids| - 1];
      StoredIs(order, front);
      assert ids == front + [last];
    }
  }

  /** One accumulation loop of `_rrf_fusion`; `order` are the keys of `scores` in the order of their insertion. */
  method Accumulate(before: map<int, real>, keys: seq<int>, ranked: seq<int>, weight: real)
    returns (scores: map<int, real>, order: seq<int>)
    requires forall id :: id in before <==> id in keys
    ensures order == Stored(keys, ranked)
    ensures forall id :: id in scores <==> id in order
    ensures forall id :: id in scores <==> id in before || id in ranked
    ensures forall id :: id in scores ==>
      scores[id] == (if id in before then before[id] else 0.0) + RankScore(ranked, id, weight, 0)
  {
    scores, order := before, keys;
    for rank := 0 to |ranked|
      invariant order == Stored(keys, ranked[..rank])
      invariant forall id :: id in scores <==> id in order
      invariant forall id :: id in scores <==> id in before || id in ranked[..rank]
      invariant forall id :: id in scores ==>
        scores[id] == (if id in before then before[id] else 0.0) + RankScore(ranked[..rank], id, weight, 0)
    {
      var id := ranked[rank];
      assert ranked[..rank + 1] == ranked[..rank] + [id] && ranked[..rank + 1][..rank] == ranked[..rank];
      forall j ensures RankScore(ranked[..rank + 1], j, weight, 0)
        == RankScore(ranked[..rank], j, weight, 0) + if id == j then weight / (RRF_K + rank + 1) as real else 0.0
      {
        RankScoreSnoc(ranked[..rank], id, j, weight, 0);
      }
      if id !in scores {
        RankScoreAbsent(ranked[..rank], id, weight, 0);
        order := order + [id];
      }
      var soFar := if id in scores then scores[id] else 0.0;
      scores := scores[id := soFar + weight / (RRF_K + rank + 1) as real];
    }
    assert ranked[..|ranked|] == ranked;
  }

  /** The scored documents, in the order in which they were first met. */
  function Scored(bm25: seq<int>, dense: seq<int>, bm25Weight: real, order: seq<int>): (hits: seq<Hit>)
    ensures |hits| == |order|
    ensures forall i :: 0 <= i < |order| ==> hits[i] == (order[i], Fused(bm25, dense, bm25Weight, order[i]))
  {
    if order == [] then []
    else
      Scored(bm25, dense, bm25Weight, order[..|order| - 1])
      + [(order[|order| - 1], Fused(bm25, dense, bm25Weight, order[|order| - 1]))]
  }

  /** The fused ranking: sorted by score, and documents with equal scores in the order in which they were first met. */
  function FusedRanking(bm25: seq<int>, dense: seq<int>, bm25Weight: real): seq<Hit> {
    SortHits(Scored(bm25, dense, bm25Weight, Stored(Stored([], bm25), dense)))
  }

  method RrfFusion(bm25: seq<int>, dense: seq<int>, bm25Weight: real) returns (fused: seq<Hit>)
    ensures fused == FusedRanking(bm25, dense, bm25Weight)
  {
    var scores, order := Accumulate(map[], [], bm25, bm25Weight);
    ghost var first := scores;
    scores, order := Accumulate(scores, order, dense, 1.0 - bm25Weight);
    forall id | id in scores ensures scores[id] == Fused(bm25, dense, bm25Weight, id) {
      if id !in first { RankScoreAbsent(bm25, id, bm25Weight, 0); }
    }
    var items: seq<Hit> := [];
    for i := 0 to |order|
      invariant items == Scored(bm25, dense, bm25Weight, order[..i])
    {
      assert order[..i + 1][..i] == order[..i];
      var id := order[i];
      assert id in order;
      items := items + [(id, scores[id])];
    }
    assert order[..|order|] == order;
    fused := SortHits(items);
  }

  lemma ScoredMembers(bm25: seq<int>, dense: seq<int>, bm25Weight: real, order: seq<int>, h: Hit)
    ensures h in Scored(bm25, dense, bm25Weight, order) <==> h.0 in order && h.1 == Fused(bm25, dense, bm25Weight, h.0)
  {
    var items := Scored(bm25, dense, bm25Weight, order);
    if h.0 in order {
      var i :| 0 <= i < |order| && order[i] == h.0;
      assert items[i].0 == h.0;
    }
  }

  lemma {:induction false} OnlyOnce(items: seq<Hit>, a: Hit)
    requires forall i, j :: 0 <= i < j < |items| ==> items[i].0 != items[j].0
    ensures multiset(items)[a] <= 1
  {
    if items != [] {
      OnlyOnce(items[1..], a);
      assert items == [items[0]] + items[1..];
      if items[0] == a {
        assert a !in items[1..];
      }
    }
  }

  lemma DistinctIds(items: seq<Hit>, sorted: seq<Hit>)
    requires multiset(items) == multiset(sorted)
    requires forall i, j :: 0 <= i < j < |items| ==> items[i].0 != items[j].0
    ensures forall i, j :: 0 <= i < j < |sorted| ==> sorted[i].0 != sorted[j].0
  {
    forall i, j | 0 <= i < j < |sorted| ensures sorted[i].0 != sorted[j].0 {
      var a, b := sorted[i], sorted[j];
      assert sorted == sorted[..i] + [a] + sorted[i + 1..j] + [b] + sorted[j + 1..];
      assert multiset{a, b} <= multiset(items);
      assert a in multiset(items) && b in multiset(items);
      if a == b {
        OnlyOnce(items, a);
      } else {
        var p :| 0 <= p < |items| && items[p] == a;
        var q :| 0 <= q < |items| && items[q] == b;
      }
    }
  }

  /** Every document of either ranking exactly once, with its fused score, in descending order. */
  lemma FusedRankingIs(bm25: seq<int>, dense: seq<int>, bm25Weight: real)
    ensures var fused := FusedRanking(bm25, dense, bm25Weight);
      && Descending(fused)
      && (forall h :: h in fused <==> (h.0 in bm25 || h.0 in dense) && h.1 == Fused(bm25, dense, bm25Weight, h.0))
      && forall i, j :: 0 <= i < j < |fused| ==> fused[i].0 != fused[j].0
  {
    var order := Stored(Stored([], bm25), dense);
    StoredIs([], bm25);
    StoredIs(Stored([], bm25), dense);
    var items := Scored(bm25, dense, bm25Weight, order);
    var fused := SortHits(items);
    SortHitsSorts(items);
    assert forall i, j :: 0 <= i < j < |items| ==> items[i].0 != items[j].0;
    forall h ensures h in fused <==> (h.0 in bm25 || h.0 in dense) && h.1 == Fused(bm25, dense, bm25Weight, h.0) {
      SortHitsMembers(items, h);
      ScoredMembers(bm25, dense, bm25Weight, order, h);
    }
    DistinctIds(items, fused);
  }

  /** In `ranked`, document `a` stands before `b`, or `b` does not occur. */
  predicate Ahead(ranked: seq<int>, a: int, b: int) {
    b in ranked ==> exists i, j :: 0 <= i < j < |ranked| && ranked[i] == a && ranked[j] == b
  }

  lemma {:induction false} RankScoreAt(ranked: seq<int>, i: nat, weight: real, offset: nat)
    requires Distinct(ranked) && i < |ranked|
    ensures RankScore(ranked, ranked[i], weight, offset) == weight / (RRF_K + offset + i + 1) as real
  {
    if i == 0 {
      RankScoreAbsent(ranked[1..], ranked[0], weight, offset + 1);
    } else {
      RankScoreAt(ranked[1..], i - 1, weight, offset + 1);
    }
  }

  /** The fused score in numbers: rank `i` from one ranking gives `bm25Weight / (61 + i)`, rank `j` from the other
      `(1 - bm25Weight) / (61 + j)`, and a ranking without the document nothing. */
  lemma FusedIs(bm25: seq<int>, dense: seq<int>, bm25Weight: real, id: int, i: nat, j: nat)
    requires Distinct(bm25) && Distinct(dense)
    requires if id in bm25 then i < |bm25| && bm25[i] == id else i == 0
    requires if id in dense then j < |dense| && dense[j] == id else j == 0
    ensures Fused(bm25, dense, bm25Weight, id)
            == (if id in bm25 then bm25Weight / (61 + i) as real else 0.0)
               + (if id in dense then (1.0 - bm25Weight) / (61 + j) as real else 0.0)
  {
    if id in bm25 {
      RankScoreAt(bm25, i, bm25Weight, 0);
    } else {
      RankScoreAbsent(bm25, id, bm25Weight, 0);
    }
    if id in dense {
      RankScoreAt(dense, j, 1.0 - bm25Weight, 0);
    } else {
      RankScoreAbsent(dense, id, 1.0 - bm25Weight, 0);
    }
  }

  lemma MulLess(a: real, b: real, c: real)
    requires a < b && c > 0.0
    ensures a * c < b * c
  {
  }

  lemma MulMore(a: real, b: real, c: real)
    requires a >= 0.0 && b <= c
    ensures a * b <= a * c
  {
  }

  lemma QuotientOrder(weight: real, m: nat, n: nat)
    requires weight >= 0.0 && 0 < m <= n
    ensures weight / m as real >= weight / n as real >= 0.0
  {
    var x, y := weight / m as real, weight / n as real;
    assert x * m as real == weight && y * n as real == weight;
    if y < 0.0 {
      MulLess(y, 0.0, n as real);
      assert false;
    }
    if x < y {
      MulLess(x, y, m as real);
      MulMore(y, m as real, n as real);
      assert false;
    }
  }

  lemma {:induction false} RankScoreNonNegative(ranked: seq<int>, id: int, weight: real, offset: nat)
    requires weight >= 0.0
    ensures RankScore(ranked, id, weight, offset) >= 0.0
  {
    if ranked != [] {
      RankScoreNonNegative(ranked[1..], id, weight, offset + 1);
      QuotientOrder(weight, RRF_K + offset + 1, RRF_K + offset + 1);
    }
  }

  lemma AheadScores(ranked: seq<int>, a: int, b: int, weight: real)
    requires Distinct(ranked) && weight >= 0.0 && Ahead(ranked, a, b)
    ensures RankScore(ranked, a, weight, 0) >= RankScore(ranked, b, weight, 0)
  {
    if b in ranked {
      var i, j :| 0 <= i < j < |ranked| && ranked[i] == a && ranked[j] == b;
      RankScoreAt(ranked, i, weight, 0);
      RankScoreAt(ranked, j, weight, 0);
      QuotientOrder(weight, RRF_K + i + 1, RRF_K + j + 1);
    } else {
      RankScoreAbsent(ranked, b, weight, 0);
      RankScoreNonNegative(ranked, a, weight, 0);
    }
  }

  /** Fusion respects agreement: a document ahead of another in both rankings never scores below it. */
  lemma FusionRespectsAgreement(bm25: seq<int>, dense: seq<int>, bm25Weight: real, a: int, b: int)
    requires Distinct(bm25) && Distinct(dense) && 0.0 <= bm25Weight <= 1.0
    requires Ahead(bm25, a, b) && Ahead(dense, a, b)
    ensures Fused(bm25, dense, bm25Weight, a) >= Fused(bm25, dense, bm25Weight, b)
  {
    AheadScores(bm25, a, b, bm25Weight);
    AheadScores(dense, a, b, 1.0 - bm25Weight);
  }
}
