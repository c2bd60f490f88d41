/** The cross-encoder rerankers (`Reranker`): a stable descending sort of
    the documents by the scores the cross-encoder predicts, cut to `top_k`.
    The predictions are inputs here, one per (query, document) pair. */
module Rerank {
  import opened Common
  import opened Ranking
  import LlmReranker

  /** `zip(documents, scores)`: pairs up to the shorter list. */
  function Zip(documents: seq<string>, scores: seq<real>): (z: seq<(string, real)>)
    ensures |z| == Min(|documents|, |scores|)
    ensures forall i :: 0 <= i < |z| ==> z[i] == (documents[i], scores[i])
  {
    seq(Min(|documents|, |scores|), i requires 0 <= i < Min(|documents|, |scores|) => (documents[i], scores[i]))
  }

  /** `rerank(query, documents, top_k)` for the predictions `scores`:
      `sorted(zip(documents, scores), key=score, reverse=True)[:top_k]`.
      The result holds `min(top_k, n)` pairs, n the number of zipped pairs,
      each a document with its own score, taken at the stable top-k
      positions. */
  function RerankPairs(documents: seq<string>, scores: seq<real>, topK: nat): (r: seq<(string, real)>)
    ensures var n := Min(|documents|, |scores|);
            var idx := TopIndices(scores[..n], topK);
            && |r| == |idx| == Min(topK, n)
            && forall p :: 0 <= p < |r| ==> r[p] == (documents[idx[p]], scores[idx[p]])
  {
    var z := Zip(documents, scores);
    var keys := seq(|z|, i requires 0 <= i < |z| => z[i].1);
    assert keys == scores[..|z|];
    Gather(z, TopIndices(keys, topK))
  }

  /** The pairs come from distinct positions, their scores are
      non-increasing, equal scores keep the input order, and no position
      left out scores higher than one returned. */
  lemma RerankIsTopK(documents: seq<string>, scores: seq<real>, topK: nat)
    ensures var n := Min(|documents|, |scores|);
            var r, idx := RerankPairs(documents, scores, topK), TopIndices(scores[..n], topK);
            && Distinct(idx)
            && (forall p, q :: 0 <= p < q < |r| ==> r[p].1 >= r[q].1)
            && (forall p, q :: 0 <= p < q < |r| && r[p].1 == r[q].1 ==> idx[p] < idx[q])
            && (forall i, p :: 0 <= i < n && i !in idx && 0 <= p < |r| ==> scores[i] <= r[p].1)
  {
    var n := Min(|documents|, |scores|);
    var keys := scores[..n];
    var r, idx := RerankPairs(documents, scores, topK), TopIndices(keys, topK);
    TopIndicesFacts(keys, topK);
    assert forall p :: 0 <= p < |r| ==> r[p].1 == keys[idx[p]];
  }

  // -----------------------------------------------------------------------
  // rerank_with_metadata
  // -----------------------------------------------------------------------

  /** A document dictionary; `score` is its `"score"` entry, None while the
      key is absent. The other entries are never written. */
  class Doc {
    const id: string
    const text: string
    var score: Option<real>

    constructor (id: string, text: string, score: Option<real>)
      ensures this.id == id && this.text == text && this.score == score
    {
      this.id := id;
      this.text := text;
      this.score := score;
    }
  }

  /** The `"score"` entry of `d` after the first n writes of the loop
      `for doc, score in zip(documents, scores): doc["score"] = score`:
      the last write to `d`, or its entry before the loop. The same
      dictionary may appear several times; the last write wins. */
  function ScoreAfter(documents: seq<Doc>, scores: seq<real>, n: nat, d: Doc, initial: Option<real>): (r: Option<real>)
    requires n <= |documents| && n <= |scores|
    ensures (forall j :: 0 <= j < n ==> documents[j] != d) ==> r == initial
    ensures (exists j :: 0 <= j < n && documents[j] == d) ==>
              exists j :: 0 <= j < n && documents[j] == d && r == Some(scores[j])
                          && forall j' :: j < j' < n ==> documents[j'] != d
  {
    if n == 0 then initial
    else if documents[n - 1] == d then Some(scores[n - 1])
    else ScoreAfter(documents, scores, n - 1, d, initial)
  }

  /** When every dictionary appears once, dictionary i ends with score i. */
  lemma {:induction false} ScoreAfterDistinct(documents: seq<Doc>, scores: seq<real>, n: nat, i: nat, initial: Option<real>)
    requires n <= |documents| && n <= |scores| && i < n && Distinct(documents)
    ensures ScoreAfter(documents, scores, n, documents[i], initial) == Some(scores[i])
  {
    if i < n - 1 {
      assert documents[n - 1] != documents[i];
      ScoreAfterDistinct(documents, scores, n - 1, i, initial);
    }
  }

  /** A dictionary past the zipped prefix keeps what it had. */
  lemma {:induction false} ScoreAfterUntouched(documents: seq<Doc>, scores: seq<real>, n: nat, d: Doc, initial: Option<real>)
    requires n <= |documents| && n <= |scores|
    requires forall j :: 0 <= j < n ==> documents[j] != d
    ensures ScoreAfter(documents, scores, n, d, initial) == initial
  {
    if n > 0 {
      ScoreAfterUntouched(documents, scores, n - 1, d, initial);
    }
  }

  /** The sort keys `x["score"]`, once every dictionary has one. */
  function Keys(documents: seq<Doc>): (k: seq<real>)
    reads set d | d in documents
    requires forall i :: 0 <= i < |documents| ==> documents[i].score.Some?
    ensures |k| == |documents|
    ensures forall i :: 0 <= i < |documents| ==> k[i] == documents[i].score.value
  {
    if documents == [] then []
    else
      var front := documents[..|documents| - 1];
      assert forall i :: 0 <= i < |front| ==> front[i] == documents[i];
      Keys(front) + [documents[|documents| - 1].score.value]
  }

  /** `rerank_with_metadata(query, documents, top_k)` for the predictions
      `scores`. Every zipped dictionary gets its score written in place,
      returned or not; a dictionary left without a `"score"` entry makes
      the sort raise KeyError; otherwise the result is the first `top_k`
      dictionaries in stable descending score order. */
  method RerankWithMetadata(documents: seq<Doc>, scores: seq<real>, topK: nat) returns (r: Result<seq<Doc>>)
    modifies set d | d in documents
    ensures forall d :: d in documents ==>
              d.score == ScoreAfter(documents, scores, Min(|documents|, |scores|), d, old(d.score))
    ensures Distinct(documents) ==>
              forall i :: 0 <= i < Min(|documents|, |scores|) ==> documents[i].score == Some(scores[i])
    ensures r.Err? <==> exists i :: 0 <= i < |documents| && documents[i].score.None?
    ensures r.Err? ==> r.error == KeyError
    ensures r.Ok? ==>
              && r.value == Gather(documents, TopIndices(Keys(documents), topK))
              && |r.value| == Min(topK, |documents|)
              && forall p, q :: 0 <= p < q < |r.value| ==> r.value[p].score.value >= r.value[q].score.value
  {
    WriteScores(documents, scores);
    if exists i :: 0 <= i < |documents| && documents[i].score.None? {
      return Err(KeyError);
    }
    var keys := Keys(documents);
    var idx := TopIndices(keys, topK);
    RankedScoresNonIncreasing(keys, idx);
    r := Ok(Gather(documents, idx));
  }

  /** The loop `for doc, score in zip(documents, scores): doc["score"] = score`. */
  method WriteScores(documents: seq<Doc>, scores: seq<real>)
    modifies set d | d in documents
    ensures forall d :: d in documents ==>
              d.score == ScoreAfter(documents, scores, Min(|documents|, |scores|), d, old(d.score))
    ensures Distinct(documents) ==>
              forall i :: 0 <= i < Min(|documents|, |scores|) ==> documents[i].score == Some(scores[i])
  {
    var n := Min(|documents|, |scores|);
    for i := 0 to n
      invariant forall d :: d in documents ==> d.score == ScoreAfter(documents, scores, i, d, old(d.score))
    {
      documents[i].score := Some(scores[i]);
    }
    if Distinct(documents) {
      forall i | 0 <= i < n ensures documents[i].score == Some(scores[i]) {
        ScoreAfterDistinct(documents, scores, n, i, old(documents[i].score));
      }
    }
  }

  /** `Reranker.llm_rerank(query, documents)` hands the call on unchanged. */
  function LlmRerank(documents: seq<LlmReranker.Document>, reply: Option<seq<LlmReranker.RankItem>>)
    : (r: seq<LlmReranker.Document>)
    ensures r == LlmReranker.LlmRerank(documents, reply)
  {
    LlmReranker.LlmRerank(documents, reply)
  }
}
