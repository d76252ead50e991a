/**
 * `sorted(range(len(scores)), key=lambda i: scores[i], reverse=True)[:m]`, the
 * top-m selection the retriever uses for both the BM25 channel and the
 * cross-encoder reranker. Python's sort is stable, also with `reverse=True`, so
 * among equal scores the smaller index comes first. Scores are integers: only
 * their order matters.
 */
module Ranking {

  /** Index `i` is ranked ahead of index `j`: a higher score, or the same score and an
      earlier position. A strict total order on the valid indices. */
  predicate Ahead(scores: seq<int>, i: int, j: int) {
    0 <= i < |scores| && 0 <= j < |scores|
    && (scores[i] > scores[j] || (scores[i] == scores[j] && i < j))
  }

  /** Every index is ranked ahead of every later one. */
  ghost predicate RankedBy(scores: seq<int>, xs: seq<int>) {
    forall a, b :: 0 <= a < b < |xs| ==> Ahead(scores, xs[a], xs[b])
  }

  /** Every element of `xs` is an index of `scores`. */
  ghost predicate InRange(scores: seq<int>, xs: seq<int>) {
    forall a :: 0 <= a < |xs| ==> 0 <= xs[a] < |scores|
  }

  /** `[0, 1, ..., n - 1]`, i.e. `range(n)`. */
  function Range(n: nat): (r: seq<int>)
    ensures |r| == n
    ensures forall i :: 0 <= i < n ==> r[i] == i
  {
    if n == 0 then [] else Range(n - 1) + [n - 1]
  }

  /** Insert `x` in front of the first element it is ranked ahead of. */
  function Insert(scores: seq<int>, x: int, xs: seq<int>): (r: seq<int>)
    ensures multiset(r) == multiset(xs) + multiset{x}
    ensures |r| == |xs| + 1
  {
    if xs == [] then [x]
    else if Ahead(scores, x, xs[0]) then [x] + xs
    else
      assert xs == [xs[0]] + xs[1..];
      [xs[0]] + Insert(scores, x, xs[1..])
  }

  /** Insertion sort of `xs` by `Ahead`. */
  function SortIndices(scores: seq<int>, xs: seq<int>): (r: seq<int>)
    ensures multiset(r) == multiset(xs)
    ensures |r| == |xs|
  {
    if xs == [] then []
    else
      assert xs == [xs[0]] + xs[1..];
      Insert(scores, xs[0], SortIndices(scores, xs[1..]))
  }

  /** All indices of `scores`, best first. */
  function Ranked(scores: seq<int>): seq<int> {
    SortIndices(scores, Range(|scores|))
  }

  /** The `m` best indices, as the slice `[:m]` of the ranking. */
  function TopIndices(scores: seq<int>, m: nat): seq<int> {
    var r := Ranked(scores);
    r[..if m <= |r| then m else |r|]
  }

  lemma AheadTransitive(scores: seq<int>, i: int, j: int, k: int)
    requires Ahead(scores, i, j) && Ahead(scores, j, k)
    ensures Ahead(scores, i, k)
  {
  }

  lemma {:induction false} InsertRanked(scores: seq<int>, x: int, xs: seq<int>)
    requires RankedBy(scores, xs) && InRange(scores, xs) && 0 <= x < |scores| && x !in xs
    ensures RankedBy(scores, Insert(scores, x, xs)) && InRange(scores, Insert(scores, x, xs))
  {
    if xs == [] {
    } else if Ahead(scores, x, xs[0]) {
      var r := [x] + xs;
      forall a, b | 0 <= a < b < |r| ensures Ahead(scores, r[a], r[b]) {
        if a == 0 && b > 1 {
          AheadTransitive(scores, x, xs[0], xs[b - 1]);
        }
      }
    } else {
      assert Ahead(scores, xs[0], x);
      var tail := Insert(scores, x, xs[1..]);
      InsertRanked(scores, x, xs[1..]);
      var r := [xs[0]] + tail;
      forall a, b | 0 <= a < b < |r| ensures Ahead(scores, r[a], r[b]) {
        if a == 0 {
          var y := tail[b - 1];
          assert y in multiset(tail);
          assert y == x || y in multiset(xs[1..]);
          if y != x {
            assert y in xs[1..];
            var c :| 0 <= c < |xs[1..]| && xs[1..][c] == y;
            assert xs[c + 1] == y;
          }
        }
      }
    }
  }

  lemma {:induction false} SortIndicesRanked(scores: seq<int>, xs: seq<int>)
    requires forall a :: 0 <= a < |xs| ==> 0 <= xs[a] < |scores|
    requires forall a, b :: 0 <= a < b < |xs| ==> xs[a] != xs[b]
    ensures RankedBy(scores, SortIndices(scores, xs)) && InRange(scores, SortIndices(scores, xs))
  {
    if xs != [] {
      SortIndicesRanked(scores, xs[1..]);
      var sorted := SortIndices(scores, xs[1..]);
      assert xs[0] !in xs[1..] by {
        forall c | 0 <= c < |xs[1..]| ensures xs[1..][c] != xs[0] {
          assert xs[1..][c] == xs[c + 1];
        }
      }
      assert xs[0] !in multiset(sorted);
      InsertRanked(scores, xs[0], sorted);
    }
  }

  /** The ranking lists every index of `scores` exactly once, best first: higher scores
      before lower ones, equal scores in their original order. */
  lemma RankedSpec(scores: seq<int>)
    ensures |Ranked(scores)| == |scores|
    ensures RankedBy(scores, Ranked(scores)) && InRange(scores, Ranked(scores))
    ensures forall j :: 0 <= j < |scores| ==> j in Ranked(scores)
  {
    var xs := Range(|scores|);
    SortIndicesRanked(scores, xs);
    forall j | 0 <= j < |scores| ensures j in Ranked(scores) {
      assert xs[j] == j;
      assert j in multiset(xs);
    }
  }

  /** The top-m selection has `min(m, n)` entries, best first with ties in original
      order, no index twice, and every index left out ranks behind every index kept. */
  lemma {:induction false} TopIndicesSpec(scores: seq<int>, m: nat)
    ensures |TopIndices(scores, m)| == if m <= |scores| then m else |scores|
    ensures RankedBy(scores, TopIndices(scores, m))
    ensures forall a, b :: 0 <= a < b < |TopIndices(scores, m)| ==> TopIndices(scores, m)[a] != TopIndices(scores, m)[b]
    ensures forall a :: 0 <= a < |TopIndices(scores, m)| ==> 0 <= TopIndices(scores, m)[a] < |scores|
    ensures forall j, a :: 0 <= j < |scores| && j !in TopIndices(scores, m) && 0 <= a < |TopIndices(scores, m)|
              ==> Ahead(scores, TopIndices(scores, m)[a], j)
  {
    RankedSpec(scores);
    var r := Ranked(scores);
    var top := TopIndices(scores, m);
    forall j, a | 0 <= j < |scores| && j !in top && 0 <= a < |top| ensures Ahead(scores, top[a], j) {
      assert j in r;
      var b :| 0 <= b < |r| && r[b] == j;
      assert b >= |top|;
    }
  }
}
