/**
 * The top-3 index selection of `CDPChatbot.find_most_relevant_docs`:
 * `np.argsort(similarities)[-3:][::-1]`, followed by looking the chosen
 * indices up in the platform's fragment list.
 *
 * The similarity scores come from a TF-IDF vectorizer and cosine
 * similarity, which are not part of this model; here they are an arbitrary
 * sequence of reals, one per fragment.
 */
module Ranking {
  import opened Seqs

  /** A documentation fragment; only its `content` is ever read. */
  datatype Fragment = Fragment(content: string)

  function Min(a: int, b: int): int { if a <= b then a else b }

  /** Every entry of `order` is an index into a score vector of length `n`. */
  predicate InRange(order: seq<nat>, n: nat)
  {
    forall i :: 0 <= i < |order| ==> order[i] < n
  }

  /** The scores of the indices in `order` never decrease from left to right. */
  predicate Ascending(scores: seq<real>, order: seq<nat>)
    requires InRange(order, |scores|)
  {
    forall i, j :: 0 <= i < j < |order| ==> scores[order[i]] <= scores[order[j]]
  }

  /**
   * What `find_most_relevant_docs` promises about the indices it picks:
   * min(3, n) distinct in-range indices, in non-increasing score order, and
   * no index left out scores strictly higher than any index picked. Among
   * equal scores the order is not fixed, since `np.argsort` uses an
   * unstable sort.
   */
  predicate IsTopSelection(scores: seq<real>, sel: seq<nat>)
  {
    |sel| == Min(3, |scores|)
    && InRange(sel, |scores|)
    && Distinct(sel)
    && (forall i, j :: 0 <= i < j < |sel| ==> scores[sel[i]] >= scores[sel[j]])
    && (forall j, i :: 0 <= j < |scores| && j !in sel && 0 <= i < |sel| ==> scores[j] <= scores[sel[i]])
  }

  /** Inserts index `x` into an index list kept in ascending score order. */
  function Insert(scores: seq<real>, x: nat, order: seq<nat>): (r: seq<nat>)
    requires x < |scores| && InRange(order, |scores|)
    ensures |r| == |order| + 1
    ensures InRange(r, |scores|)
    ensures forall v :: v in r <==> v == x || v in order
    ensures Distinct(order) && x !in order ==> Distinct(r)
    ensures Ascending(scores, order) ==> Ascending(scores, r)
  {
    if order == [] then [x]
    else if scores[x] <= scores[order[0]] then [x] + order
    else
      var rest := Insert(scores, x, order[1..]);
      InsertStep(scores, x, order, rest);
      [order[0]] + rest
  }

  /** The recursive case of `Insert`: the head of `order` stays in front of the rest. */
  lemma InsertStep(scores: seq<real>, x: nat, order: seq<nat>, rest: seq<nat>)
    requires x < |scores| && InRange(order, |scores|) && order != []
    requires forall v :: v in rest <==> v == x || v in order[1..]
    requires InRange(rest, |scores|)
    ensures Distinct(order) && x !in order && Distinct(rest) ==> Distinct([order[0]] + rest)
    ensures Ascending(scores, order) && scores[order[0]] < scores[x] && Ascending(scores, rest)
            ==> Ascending(scores, [order[0]] + rest)
  {
    if Ascending(scores, order) && scores[order[0]] < scores[x] && Ascending(scores, rest) {
      var r := [order[0]] + rest;
      forall i, j | 0 <= i < j < |r| ensures scores[r[i]] <= scores[r[j]] {
        if i == 0 {
          assert r[j] == rest[j - 1];
          assert r[j] in rest;
          if r[j] != x {
            assert r[j] in order[1..];
            var k :| 0 <= k < |order[1..]| && order[1..][k] == r[j];
            assert order[k + 1] == r[j];
          }
        } else {
          assert r[i] == rest[i - 1] && r[j] == rest[j - 1];
        }
      }
    }
    if Distinct(order) && x !in order && Distinct(rest) {
      assert order[0] !in order[1..] by {
        forall i | 0 <= i < |order[1..]| ensures order[1..][i] != order[0] {
          assert order[1..][i] == order[i + 1];
        }
      }
      var r := [order[0]] + rest;
      forall i, j | 0 <= i < j < |r| ensures r[i] != r[j] {
        if i == 0 { assert r[j] == rest[j - 1]; assert r[j] in rest; }
        else { assert r[i] == rest[i - 1] && r[j] == rest[j - 1]; }
      }
    }
  }

  /** Sorts the indices 0 .. m-1 by ascending score. */
  function SortIndices(scores: seq<real>, m: nat): (r: seq<nat>)
    requires m <= |scores|
    ensures |r| == m
    ensures InRange(r, |scores|)
    ensures forall v :: v in r <==> 0 <= v < m
    ensures Distinct(r)
    ensures Ascending(scores, r)
  {
    if m == 0 then []
    else
      var r := Insert(scores, m - 1, SortIndices(scores, m - 1));
      r
  }

  /** `np.argsort(scores)`: every index exactly once, in ascending score order. */
  function ArgSort(scores: seq<real>): (r: seq<nat>)
    ensures |r| == |scores| && InRange(r, |scores|) && Distinct(r) && Ascending(scores, r)
    ensures forall v :: v in r <==> 0 <= v < |scores|
  {
    SortIndices(scores, |scores|)
  }

  /** `np.argsort(scores)[-3:][::-1]`: the last (at most) three sorted indices, highest score first. */
  function TopThree(scores: seq<real>): (sel: seq<nat>)
    ensures IsTopSelection(scores, sel)
  {
    var order := ArgSort(scores);
    var n := |order|;
    var k := Min(3, n);
    var sel := seq(k, i requires 0 <= i < k => order[n - 1 - i]);
    TopThreeCorrect(scores, order, sel);
    sel
  }

  /** The reversed tail of a complete ascending index order is a top selection. */
  lemma TopThreeCorrect(scores: seq<real>, order: seq<nat>, sel: seq<nat>)
    requires |order| == |scores| && InRange(order, |scores|) && Distinct(order) && Ascending(scores, order)
    requires forall v :: v in order <==> 0 <= v < |scores|
    requires |sel| == Min(3, |order|)
    requires forall i :: 0 <= i < |sel| ==> sel[i] == order[|order| - 1 - i]
    ensures IsTopSelection(scores, sel)
  {
    var n := |order|;
    forall j, i | 0 <= j < n && j !in sel && 0 <= i < |sel|
      ensures scores[j] <= scores[sel[i]]
    {
      assert j in order;
      var q :| 0 <= q < n && order[q] == j;
      assert forall p :: n - |sel| <= p < n ==> order[p] == sel[n - 1 - p];
      assert q < n - |sel| <= n - 1 - i;
    }
  }

  /** The first selected index holds the highest score of all. */
  lemma TopSelectionHeadIsMaximum(scores: seq<real>, sel: seq<nat>)
    requires IsTopSelection(scores, sel) && |scores| > 0
    ensures forall j :: 0 <= j < |scores| ==> scores[j] <= scores[sel[0]]
  {
    forall j | 0 <= j < |scores| ensures scores[j] <= scores[sel[0]] {
      if j in sel {
        var i :| 0 <= i < |sel| && sel[i] == j;
        if i > 0 {
          assert scores[sel[0]] >= scores[sel[i]];
        }
      } else {
        assert scores[j] <= scores[sel[0]];
      }
    }
  }

  /**
   * `find_most_relevant_docs`: the fragments at the selected indices, most
   * relevant first. The score vector has one entry per fragment.
   */
  function MostRelevantDocs(docs: seq<Fragment>, scores: seq<real>): (r: seq<Fragment>)
    requires |scores| == |docs|
    ensures |r| == Min(3, |docs|)
    ensures exists sel :: IsTopSelection(scores, sel) && forall i :: 0 <= i < |r| ==> r[i] == docs[sel[i]]
  {
    var sel := TopThree(scores);
    seq(|sel|, i requires 0 <= i < |sel| => docs[sel[i]])
  }
}
