/**
  Re-ranking of the retrieved documents (app/main.py, the document path of `chat`):
  the cross-encoder scores every (prompt, document) pair, `scores.argsort()` orders the
  indices by ascending score, and `[::-1][:3]` keeps the three best.

  Scores are floats in the source; here they are integers, which keeps only their order.
  numpy's default `argsort` is not stable, so the order among equal scores is unspecified:
  `IsArgsort` admits every such order, `Ranked` takes the order as an input, and the
  selection lemma holds for all of them.
*/
module Ranking {
  import opened Common

  /** How many documents are kept. */
  const TopCount: nat := 3

  /** Every entry of `order` indexes `scores`. */
  predicate IndicesIn(order: seq<nat>, n: nat)
  {
    forall i :: 0 <= i < |order| ==> order[i] < n
  }

  /** No index appears twice. */
  predicate Distinct(order: seq<nat>)
  {
    forall i, j :: 0 <= i < j < |order| ==> order[i] != order[j]
  }

  /** The indices in `order` have non-decreasing scores. */
  predicate Ascending(scores: seq<int>, order: seq<nat>)
    requires IndicesIn(order, |scores|)
  {
    forall i, j :: 0 <= i < j < |order| ==> scores[order[i]] <= scores[order[j]]
  }

  /** What numpy promises of `scores.argsort()`: a permutation of the indices that sorts
      the scores in ascending order, with ties in any order. Its last index then holds a
      highest score. */
  function IsArgsort(scores: seq<int>, order: seq<nat>): (r: bool)
    ensures r && order != [] ==>
              order[|order| - 1] < |scores|
              && forall j :: 0 <= j < |scores| ==> scores[j] <= scores[order[|order| - 1]]
  {
    var r := |order| == |scores| && IndicesIn(order, |scores|) && Distinct(order)
      && (forall j :: 0 <= j < |scores| ==> j in order)
      && Ascending(scores, order);
    if r && order != [] then LastIsHighest(scores, order); r else r
  }

  /** In an ascending order that lists every index, the last index scores highest. */
  lemma LastIsHighest(scores: seq<int>, order: seq<nat>)
    requires order != [] && IndicesIn(order, |scores|) && Ascending(scores, order)
    requires forall j :: 0 <= j < |scores| ==> j in order
    ensures forall j :: 0 <= j < |scores| ==> scores[j] <= scores[order[|order| - 1]]
  {
    forall j | 0 <= j < |scores| ensures scores[j] <= scores[order[|order| - 1]] {
      assert j in order;
      var i :| 0 <= i < |order| && order[i] == j;
      if i < |order| - 1 {
        assert scores[order[i]] <= scores[order[|order| - 1]];
      }
    }
  }

  /** Inserts index `x` into an ascending `order`, after every index of equal score. */
  function Insert(scores: seq<int>, order: seq<nat>, x: nat): (r: seq<nat>)
    requires x < |scores| && IndicesIn(order, |scores|)
    ensures |r| == |order| + 1 && IndicesIn(r, |scores|)
    ensures forall y :: y in r <==> y == x || y in order
  {
    if order == [] || scores[x] < scores[order[0]] then
      [x] + order
    else
      assert order == [order[0]] + order[1..];
      [order[0]] + Insert(scores, order[1..], x)
  }

  /** Every index in `order` scores at least `v`. */
  predicate AllAtLeast(scores: seq<int>, order: seq<nat>, v: int)
    requires IndicesIn(order, |scores|)
  {
    forall j :: 0 <= j < |order| ==> v <= scores[order[j]]
  }

  /** The tail of an ascending order is ascending and scores at least its head. */
  lemma AscendingTail(scores: seq<int>, order: seq<nat>)
    requires order != [] && IndicesIn(order, |scores|) && Ascending(scores, order)
    ensures Ascending(scores, order[1..]) && AllAtLeast(scores, order[1..], scores[order[0]])
  {
    var tail := order[1..];
    forall i, j | 0 <= i < j < |tail| ensures scores[tail[i]] <= scores[tail[j]] {
      assert tail[i] == order[i + 1] && tail[j] == order[j + 1];
    }
    forall j | 0 <= j < |tail| ensures scores[order[0]] <= scores[tail[j]] {
      assert tail[j] == order[j + 1];
    }
  }

  /** An index scoring at most every index of an ascending order can go in front of it. */
  lemma AscendingCons(scores: seq<int>, a: nat, order: seq<nat>)
    requires a < |scores| && IndicesIn(order, |scores|) && Ascending(scores, order)
    requires AllAtLeast(scores, order, scores[a])
    ensures IndicesIn([a] + order, |scores|) && Ascending(scores, [a] + order)
  {
    var r := [a] + order;
    forall i, j | 0 <= i < j < |r| ensures scores[r[i]] <= scores[r[j]] {
      assert r[j] == order[j - 1];
      if i > 0 {
        assert r[i] == order[i - 1];
      }
    }
  }

  /** Inserting an index scoring at least `v` keeps every index at least `v`. */
  lemma {:induction false} InsertAtLeast(scores: seq<int>, order: seq<nat>, x: nat, v: int)
    requires x < |scores| && IndicesIn(order, |scores|) && AllAtLeast(scores, order, v)
    requires v <= scores[x]
    decreases |order|
    ensures AllAtLeast(scores, Insert(scores, order, x), v)
  {
    if order == [] || scores[x] < scores[order[0]] {
      var r := [x] + order;
      forall j | 0 <= j < |r| ensures v <= scores[r[j]] {
        if j > 0 {
          assert r[j] == order[j - 1];
        }
      }
    } else {
      var tail := order[1..];
      forall j | 0 <= j < |tail| ensures v <= scores[tail[j]] {
        assert tail[j] == order[j + 1];
      }
      InsertAtLeast(scores, tail, x, v);
      var r := [order[0]] + Insert(scores, tail, x);
      forall j | 0 <= j < |r| ensures v <= scores[r[j]] {
        if j > 0 {
          assert r[j] == Insert(scores, tail, x)[j - 1];
        }
      }
    }
  }

  /** Inserting keeps the order ascending. */
  lemma {:induction false} InsertAscending(scores: seq<int>, order: seq<nat>, x: nat)
    requires x < |scores| && IndicesIn(order, |scores|) && Ascending(scores, order)
    decreases |order|
    ensures Ascending(scores, Insert(scores, order, x))
  {
    if order == [] {
    } else if scores[x] < scores[order[0]] {
      AscendingTail(scores, order);
      forall j | 0 <= j < |order| ensures scores[x] <= scores[order[j]] {
        if j > 0 {
          assert order[j] == order[1..][j - 1];
        }
      }
      AscendingCons(scores, x, order);
    } else {
      var tail := order[1..];
      AscendingTail(scores, order);
      InsertAscending(scores, tail, x);
      InsertAtLeast(scores, tail, x, scores[order[0]]);
      AscendingCons(scores, order[0], Insert(scores, tail, x));
    }
  }

  /** The tail of a sequence without repeats has none, and lacks the head. */
  lemma DistinctTail(order: seq<nat>)
    requires order != [] && Distinct(order)
    ensures Distinct(order[1..]) && order[0] !in order[1..]
  {
    var tail := order[1..];
    forall i, j | 0 <= i < j < |tail| ensures tail[i] != tail[j] {
      assert tail[i] == order[i + 1] && tail[j] == order[j + 1];
    }
    forall j | 0 <= j < |tail| ensures tail[j] != order[0] {
      assert tail[j] == order[j + 1];
    }
  }

  /** A fresh index can go in front of a sequence without repeats. */
  lemma DistinctCons(a: nat, order: seq<nat>)
    requires Distinct(order) && a !in order
    ensures Distinct([a] + order)
  {
    var r := [a] + order;
    forall i, j | 0 <= i < j < |r| ensures r[i] != r[j] {
      assert r[j] == order[j - 1];
      if i > 0 {
        assert r[i] == order[i - 1];
      }
    }
  }

  /** Inserting an index not yet present keeps the entries distinct. */
  lemma {:induction false} InsertDistinct(scores: seq<int>, order: seq<nat>, x: nat)
    requires x < |scores| && IndicesIn(order, |scores|) && Distinct(order) && x !in order
    decreases |order|
    ensures Distinct(Insert(scores, order, x))
  {
    if order == [] || scores[x] < scores[order[0]] {
      DistinctCons(x, order);
    } else {
      var tail := order[1..];
      DistinctTail(order);
      assert order == [order[0]] + tail;
      InsertDistinct(scores, tail, x);
      DistinctCons(order[0], Insert(scores, tail, x));
    }
  }

  /** The indices `0 .. m-1` inserted one after another. */
  function ArgsortPrefix(scores: seq<int>, m: nat): (r: seq<nat>)
    requires m <= |scores|
    ensures IndicesIn(r, |scores|)
  {
    if m == 0 then [] else Insert(scores, ArgsortPrefix(scores, m - 1), m - 1)
  }

  /** The first `m` indices, inserted one after another, form an admissible `argsort`
      of those indices. */
  lemma {:induction false} ArgsortPrefixSorted(scores: seq<int>, m: nat)
    requires m <= |scores|
    ensures var r := ArgsortPrefix(scores, m);
      |r| == m && Distinct(r) && Ascending(scores, r) && forall y: nat :: y in r <==> y < m
  {
    if m > 0 {
      var prev := ArgsortPrefix(scores, m - 1);
      ArgsortPrefixSorted(scores, m - 1);
      assert (m - 1) !in prev;
      InsertAscending(scores, prev, m - 1);
      InsertDistinct(scores, prev, m - 1);
    }
  }

  /** One admissible order of `scores.argsort()` (ties in index order): every score sequence
      has an order that `IsArgsort` allows. */
  function Argsort(scores: seq<int>): (r: seq<nat>)
    ensures IsArgsort(scores, r)
  {
    ArgsortPrefixSorted(scores, |scores|);
    ArgsortPrefix(scores, |scores|)
  }

  /** `order[::-1][:k]`: `min(k, n)` entries of `order`, none twice when `order` has none
      twice. */
  function TopIndices(order: seq<nat>, k: nat): (r: seq<nat>)
    ensures |r| == Min(k, |order|) && forall a :: 0 <= a < |r| ==> r[a] in order
    ensures Distinct(order) ==> Distinct(r)
  {
    var n := Min(k, |order|);
    seq(n, a requires 0 <= a < n => order[|order| - 1 - a])
  }

  /** `sel` is a correct choice of the `k` best of `scores`: `min(k, n)` distinct indices,
      in non-increasing score order, none of them beaten by an index left out. */
  predicate IsTopSelection(scores: seq<int>, sel: seq<nat>, k: nat)
  {
    |sel| == Min(k, |scores|) && IndicesIn(sel, |scores|) && Distinct(sel)
    && (forall a, b :: 0 <= a < b < |sel| ==> scores[sel[a]] >= scores[sel[b]])
    && (forall a, j :: 0 <= a < |sel| && 0 <= j < |scores| && j !in sel ==> scores[sel[a]] >= scores[j])
  }

  /** Whatever order numpy produces for ties, reversing it and keeping `k` yields a
      correct top-`k` selection. */
  lemma TopIndicesAreTop(scores: seq<int>, order: seq<nat>, k: nat)
    requires IsArgsort(scores, order)
    ensures IsTopSelection(scores, TopIndices(order, k), k)
  {
    TopIndicesOrdered(scores, order, k);
    TopIndicesUnbeaten(scores, order, k);
  }

  /** The selection is read backwards from the end of `order`. */
  lemma TopIndicesOrdered(scores: seq<int>, order: seq<nat>, k: nat)
    requires IsArgsort(scores, order)
    ensures var sel := TopIndices(order, k);
            |sel| == Min(k, |scores|) && IndicesIn(sel, |scores|) && Distinct(sel)
            && forall a, b :: 0 <= a < b < |sel| ==> scores[sel[a]] >= scores[sel[b]]
  {
    var sel := TopIndices(order, k);
    var n := |order|;
    forall a, b | 0 <= a < b < |sel| ensures sel[a] != sel[b] && scores[sel[a]] >= scores[sel[b]] {
      assert sel[a] == order[n - 1 - a] && sel[b] == order[n - 1 - b];
    }
  }

  /** No index left out of the selection beats a selected one. */
  lemma TopIndicesUnbeaten(scores: seq<int>, order: seq<nat>, k: nat)
    requires IsArgsort(scores, order)
    ensures var sel := TopIndices(order, k);
            forall a, j :: 0 <= a < |sel| && 0 <= j < |scores| && j !in sel ==> scores[sel[a]] >= scores[j]
  {
    var sel := TopIndices(order, k);
    var n := |order|;
    forall q | n - |sel| <= q < n ensures order[q] in sel {
      assert sel[n - 1 - q] == order[q];
    }
    forall a, j | 0 <= a < |sel| && 0 <= j < |scores| && j !in sel
      ensures scores[sel[a]] >= scores[j]
    {
      assert j in order;
      var p :| 0 <= p < n && order[p] == j;
      assert sel[a] == order[n - 1 - a];
      assert p < n - 1 - a;
    }
  }

  /** `[retrieved_docs[i] for i in sel]`. */
  function Pick(docs: seq<string>, sel: seq<nat>): (r: seq<string>)
    requires IndicesIn(sel, |docs|)
    ensures |r| == |sel| && forall a :: 0 <= a < |sel| ==> r[a] == docs[sel[a]]
  {
    seq(|sel|, a requires 0 <= a < |sel| => docs[sel[a]])
  }

  /** `ranked_docs` for the order `order` returned by `scores.argsort()`: the documents with
      the `k` best scores, best first. */
  function Ranked(docs: seq<string>, scores: seq<int>, order: seq<nat>, k: nat): (r: seq<string>)
    requires |scores| == |docs| && IsArgsort(scores, order)
    ensures |r| == Min(k, |docs|)
    ensures exists sel :: IsTopSelection(scores, sel, k) && r == Pick(docs, sel)
  {
    var sel := TopIndices(order, k);
    TopIndicesAreTop(scores, order, k);
    Pick(docs, sel)
  }
}
