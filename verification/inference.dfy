/**
 * The retrieval step of the question-answering script: the question is
 * embedded, every table row is scored against it, and the five
 * best-scoring rows are extracted for the prompt. The embedding service
 * and the cosine-similarity scores are inputs of the model.
 */
module Inference {
  import opened Wrappers
  import opened CreatingEmbeddings

  /** `top_results`: how many rows the prompt receives. */
  const TopResults: nat := 5

  /** The IndexError of `[0]` on an empty embedding response. */
  datatype QueryError = IndexError

  /** `create_embedding([incoming_query])[0]`: the query is sent as a batch of one. */
  function QueryEmbedding(embed: seq<string> -> seq<Vector>, query: string): (r: Result<Vector, QueryError>)
    ensures r.Success? <==> |embed([query])| > 0
    ensures r.Success? ==> r.value == embed([query])[0]
  {
    var response := embed([query]);
    if |response| == 0 then Failure(QueryError.IndexError) else Success(response[0])
  }

  function Min(a: int, b: int): int
  {
    if a <= b then a else b
  }

  /** `order` lists every position `0 .. n-1` exactly once. */
  predicate IsIndexPermutation(order: seq<nat>, n: nat)
  {
    && |order| == n
    && (forall i :: 0 <= i < |order| ==> order[i] < n)
    && (forall i, j :: 0 <= i < j < |order| ==> order[i] != order[j])
    && (forall v :: 0 <= v < n ==> v in order)
  }

  /** The positions in `order` have non-decreasing scores. */
  predicate SortedByScore(scores: seq<real>, order: seq<nat>)
    requires forall i :: 0 <= i < |order| ==> order[i] < |scores|
  {
    forall i, j :: 0 <= i < j < |order| ==> scores[order[i]] <= scores[order[j]]
  }

  /**
   * What numpy's `argsort` returns for `scores`: a permutation of the
   * positions in ascending score order. Its default sort is not stable, so
   * the order among equal scores is left open.
   */
  predicate IsAscendingArgsort(scores: seq<real>, order: seq<nat>)
  {
    IsIndexPermutation(order, |scores|) && SortedByScore(scores, order)
  }

  /** `s[::-1]`. */
  function Reverse<T>(s: seq<T>): (r: seq<T>)
    ensures |r| == |s|
    ensures forall i :: 0 <= i < |s| ==> r[i] == s[|s| - 1 - i]
  {
    if |s| == 0 then [] else [s[|s| - 1]] + Reverse(s[..|s| - 1])
  }

  /** `s[:k]`: the first `k` elements, or all of them when there are fewer. */
  function Take<T>(s: seq<T>, k: nat): (r: seq<T>)
    ensures |r| == Min(k, |s|)
    ensures r <= s
  {
    if k <= |s| then s[..k] else s
  }

  /** Position `a` of `argsort()[::-1][:k]` is position `n - 1 - a` of the argsort. */
  lemma SelectionAt(order: seq<nat>, k: nat, a: nat)
    requires a < |Take(Reverse(order), k)|
    ensures Take(Reverse(order), k)[a] == order[|order| - 1 - a]
  {
    assert Take(Reverse(order), k)[a] == Reverse(order)[a];
  }

  /** The argsort entry at `q` is selected when `n - 1 - q` falls inside the selection. */
  lemma SelectedIn(order: seq<nat>, k: nat, q: nat)
    requires q < |order| && |order| - 1 - q < |Take(Reverse(order), k)|
    ensures order[q] in Take(Reverse(order), k)
  {
    SelectionAt(order, k, |order| - 1 - q);
  }

  /** A row left out of `argsort()[::-1][:k]` scores no higher than any selected row. */
  lemma LeftOutScoresNoHigher(scores: seq<real>, order: seq<nat>, k: nat, j: nat, a: nat)
    requires IsAscendingArgsort(scores, order)
    requires j < |scores| && j !in Take(Reverse(order), k)
    requires a < |Take(Reverse(order), k)|
    ensures scores[j] <= scores[Take(Reverse(order), k)[a]]
  {
    var n := |order|;
    var r := Take(Reverse(order), k);
    assert j in order;
    var q :| 0 <= q < n && order[q] == j;
    if n - 1 - q < |r| {
      SelectedIn(order, k, q);
    }
    SelectionAt(order, k, a);
    assert q < n - 1 - a;
  }

  /** The selection `argsort()[::-1][:k]` has the properties of a top-`k` choice. */
  lemma TopIndicesProperties(scores: seq<real>, order: seq<nat>, k: nat, r: seq<nat>)
    requires IsAscendingArgsort(scores, order) && r == Take(Reverse(order), k)
    ensures forall a :: 0 <= a < |r| ==> r[a] < |scores|
    ensures forall a, b :: 0 <= a < b < |r| ==> r[a] != r[b]
    ensures forall a, b :: 0 <= a < b < |r| ==> scores[r[a]] >= scores[r[b]]
    ensures forall j, a :: 0 <= j < |scores| && j !in r && 0 <= a < |r| ==>
              scores[j] <= scores[r[a]]
  {
    var n := |order|;
    forall a | 0 <= a < |r|
      ensures r[a] == order[n - 1 - a] && r[a] < |scores|
    {
      SelectionAt(order, k, a);
    }
    forall a, b | 0 <= a < b < |r|
      ensures r[a] != r[b] && scores[r[a]] >= scores[r[b]]
    {
      assert r[a] == order[n - 1 - a] && r[b] == order[n - 1 - b];
      assert n - 1 - b < n - 1 - a;
    }
    forall j, a | 0 <= j < |scores| && j !in r && 0 <= a < |r|
      ensures scores[j] <= scores[r[a]]
    {
      LeftOutScoresNoHigher(scores, order, k, j, a);
    }
  }

  /**
   * `max_idx = similarities.argsort()[::-1][:k]` for an ascending argsort
   * `order` of the scores: `min(k, n)` distinct row positions, best score
   * first, and no row left out scores above a selected one.
   */
  function TopIndices(scores: seq<real>, order: seq<nat>, k: nat): (r: seq<nat>)
    requires IsAscendingArgsort(scores, order)
    ensures |r| == Min(k, |scores|)
    ensures forall a :: 0 <= a < |r| ==> r[a] < |scores|
    ensures forall a, b :: 0 <= a < b < |r| ==> r[a] != r[b]
    ensures forall a, b :: 0 <= a < b < |r| ==> scores[r[a]] >= scores[r[b]]
    ensures forall j, a :: 0 <= j < |scores| && j !in r && 0 <= a < |r| ==>
              scores[j] <= scores[r[a]]
  {
    var r := Take(Reverse(order), k);
    TopIndicesProperties(scores, order, k, r);
    r
  }

  /** A row of a selected frame together with its index label, which `to_json()` writes as its key. */
  datatype Labelled = Labelled(index: nat, row: Row)

  /** The index labels of a selected frame, in row order. */
  function Labels(rows: seq<Labelled>): (r: seq<nat>)
    ensures |r| == |rows|
    ensures forall a :: 0 <= a < |rows| ==> r[a] == rows[a].index
  {
    seq(|rows|, a requires 0 <= a < |rows| => rows[a].index)
  }

  /**
   * `df.loc[idx]`. The table is built with the default index `0 .. n-1`,
   * so labels are positions; the selected rows keep their labels.
   */
  function RowsAt(table: seq<Row>, idx: seq<nat>): (r: seq<Labelled>)
    requires forall a :: 0 <= a < |idx| ==> idx[a] < |table|
    ensures |r| == |idx|
    ensures forall a :: 0 <= a < |idx| ==> r[a] == Labelled(idx[a], table[idx[a]])
  {
    if |idx| == 0 then [] else RowsAt(table, idx[..|idx| - 1]) + [Labelled(idx[|idx| - 1], table[idx[|idx| - 1]])]
  }

  /**
   * The frame handed to the prompt: `min(5, n)` distinct table rows, each
   * under its own label with every field intact, best score first, and no
   * row left out scoring above a selected one.
   */
  function Retrieve(table: seq<Row>, scores: seq<real>, order: seq<nat>): (r: seq<Labelled>)
    requires |scores| == |table| && IsAscendingArgsort(scores, order)
    ensures |r| == Min(TopResults, |table|)
    ensures forall a :: 0 <= a < |r| ==> r[a].index < |table| && r[a].row == table[r[a].index]
    ensures forall a, b :: 0 <= a < b < |r| ==> r[a].index != r[b].index
    ensures forall a, b :: 0 <= a < b < |r| ==> scores[r[a].index] >= scores[r[b].index]
    ensures forall j, a :: 0 <= j < |table| && j !in Labels(r) && 0 <= a < |r| ==>
              scores[j] <= scores[r[a].index]
  {
    var idx := TopIndices(scores, order, TopResults);
    var r := RowsAt(table, idx);
    assert Labels(r) == idx;
    r
  }

  /**
   * Insert position `j` into an ascending order after every position whose
   * score is not greater, keeping it ascending.
   */
  function Insert(scores: seq<real>, order: seq<nat>, j: nat): (r: seq<nat>)
    requires j < |scores|
    requires forall i :: 0 <= i < |order| ==> order[i] < |scores|
    requires SortedByScore(scores, order)
    ensures |r| == |order| + 1
    ensures forall i :: 0 <= i < |r| ==> r[i] < |scores|
    ensures forall v :: v in r <==> v in order || v == j
    ensures SortedByScore(scores, r)
  {
    if |order| == 0 then [j]
    else if scores[j] < scores[order[0]] then [j] + order
    else
      var rest := Insert(scores, order[1..], j);
      assert forall v :: v in order <==> v == order[0] || v in order[1..];
      forall b | 0 <= b < |rest|
        ensures scores[order[0]] <= scores[rest[b]]
      {
        assert rest[b] in rest;
        if rest[b] != j {
          var c :| 0 <= c < |order[1..]| && order[1..][c] == rest[b];
          assert order[1..][c] == order[c + 1];
        }
      }
      SortedCons(scores, order[0], rest);
      [order[0]] + rest
  }

  /** A position whose score is at most every score of a sorted order can go in front of it. */
  lemma SortedCons(scores: seq<real>, x: nat, rest: seq<nat>)
    requires x < |scores| && forall i :: 0 <= i < |rest| ==> rest[i] < |scores|
    requires SortedByScore(scores, rest)
    requires forall b :: 0 <= b < |rest| ==> scores[x] <= scores[rest[b]]
    ensures forall i :: 0 <= i < |[x] + rest| ==> ([x] + rest)[i] < |scores|
    ensures SortedByScore(scores, [x] + rest)
  {
    var r := [x] + rest;
    assert forall b :: 1 <= b < |r| ==> r[b] == rest[b - 1];
  }

  /** Inserting a new position into a list without repeats gives a list without repeats. */
  lemma {:induction false} InsertDistinct(scores: seq<real>, order: seq<nat>, j: nat, r: seq<nat>)
    requires j < |scores|
    requires forall i :: 0 <= i < |order| ==> order[i] < |scores|
    requires SortedByScore(scores, order)
    requires forall a, b :: 0 <= a < b < |order| ==> order[a] != order[b]
    requires j !in order
    requires r == Insert(scores, order, j)
    ensures forall a, b :: 0 <= a < b < |r| ==> r[a] != r[b]
    decreases |order|
  {
    if |order| > 0 && scores[j] >= scores[order[0]] {
      var rest := Insert(scores, order[1..], j);
      InsertDistinct(scores, order[1..], j, rest);
      forall b | 0 <= b < |rest|
        ensures rest[b] != order[0]
      {
        assert rest[b] in rest;
        if rest[b] != j {
          var c :| 0 <= c < |order[1..]| && order[1..][c] == rest[b];
          assert order[1..][c] == order[c + 1];
        }
      }
      assert r == [order[0]] + rest;
      DistinctCons(order[0], rest);
    } else {
      assert r == [j] + order;
      DistinctCons(j, order);
    }
  }

  /** Putting a new value in front of a repetition-free sequence keeps it free of repetitions. */
  lemma DistinctCons(x: nat, rest: seq<nat>)
    requires forall a, b :: 0 <= a < b < |rest| ==> rest[a] != rest[b]
    requires forall b :: 0 <= b < |rest| ==> rest[b] != x
    ensures forall a, b :: 0 <= a < b < |[x] + rest| ==> ([x] + rest)[a] != ([x] + rest)[b]
  {
    var r := [x] + rest;
    assert forall b :: 1 <= b < |r| ==> r[b] == rest[b - 1];
  }

  /** An ascending argsort of the first `n` scores, built by insertion. */
  function ArgSortPrefix(scores: seq<real>, n: nat): (r: seq<nat>)
    requires n <= |scores|
    ensures forall i :: 0 <= i < |r| ==> r[i] < |scores|
    ensures IsIndexPermutation(r, n)
    ensures SortedByScore(scores, r)
  {
    if n == 0 then []
    else
      var prev := ArgSortPrefix(scores, n - 1);
      assert n - 1 !in prev;
      var r := Insert(scores, prev, n - 1);
      InsertDistinct(scores, prev, n - 1, r);
      assert forall i :: 0 <= i < |r| ==> r[i] < n by {
        forall i | 0 <= i < |r|
          ensures r[i] < n
        {
          assert r[i] in r;
        }
      }
      assert forall v :: 0 <= v < n ==> v in r by {
        forall v | 0 <= v < n
          ensures v in r
        {
          if v < n - 1 {
            assert v in prev;
          }
        }
      }
      r
  }

  /** Every list of scores has an ascending argsort, so `Retrieve` applies to any table. */
  function ArgSort(scores: seq<real>): (r: seq<nat>)
    ensures IsAscendingArgsort(scores, r)
  {
    ArgSortPrefix(scores, |scores|)
  }
}
