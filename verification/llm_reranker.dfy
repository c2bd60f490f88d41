/** The post-processing of `llm_rerank`: the language model's reply, once
    parsed, is a list of `{id, score}` objects; the documents are stably
    sorted by the score listed for their id. An unparsable reply leaves the
    documents as they were. */
module LlmReranker {
  import opened Common
  import opened Ranking

  /** A document dictionary `{"id": ..., "text": ..., "metadata": ...}`. */
  datatype Document = Document(id: string, text: string, metadata: Meta)

  /** One object of the parsed reply. */
  datatype RankItem = RankItem(id: string, score: real)

  /** `{item["id"]: item["score"] for item in ranking}`: later items
      overwrite earlier ones with the same id. */
  function DocScores(ranking: seq<RankItem>): (m: map<string, real>)
    ensures forall id :: id in m <==> exists j :: 0 <= j < |ranking| && ranking[j].id == id
  {
    if ranking == [] then map[]
    else
      var last := ranking[|ranking| - 1];
      var m := DocScores(ranking[..|ranking| - 1])[last.id := last.score];
      assert forall j :: 0 <= j < |ranking| - 1 ==> ranking[..|ranking| - 1][j] == ranking[j];
      m
  }

  /** Every score in the dict is one the reply lists for that id. */
  lemma {:induction false} DocScoresListed(ranking: seq<RankItem>, id: string)
    requires id in DocScores(ranking)
    ensures exists j :: 0 <= j < |ranking| && ranking[j] == RankItem(id, DocScores(ranking)[id])
  {
    var n := |ranking|;
    var front := ranking[..n - 1];
    if ranking[n - 1].id != id {
      DocScoresListed(front, id);
      var j :| 0 <= j < |front| && front[j] == RankItem(id, DocScores(front)[id]);
      assert ranking[j] == front[j];
    }
  }

  /** `doc_scores.get(d["id"], 0)`: a score the reply lists for the id, or
      0 when it lists none. */
  function ScoreOf(ranking: seq<RankItem>, id: string): (r: real)
    ensures (forall j :: 0 <= j < |ranking| ==> ranking[j].id != id) ==> r == 0.0
    ensures (exists j :: 0 <= j < |ranking| && ranking[j].id == id) ==>
              exists j :: 0 <= j < |ranking| && ranking[j] == RankItem(id, r)
  {
    var m := DocScores(ranking);
    if id in m then DocScoresListed(ranking, id); m[id] else 0.0
  }

  /** The sort key of every document. */
  function Keys(documents: seq<Document>, ranking: seq<RankItem>): (k: seq<real>)
    ensures |k| == |documents|
    ensures forall i :: 0 <= i < |documents| ==> k[i] == ScoreOf(ranking, documents[i].id)
  {
    seq(|documents|, i requires 0 <= i < |documents| => ScoreOf(ranking, documents[i].id))
  }

  /** `llm_rerank(query, documents)` for the reply `reply`. None stands
      for any exception inside the `try`: a reply `json.loads` rejects, but
      also the AttributeError of reading `response.choices` from a client
      response that has no such field, which makes the fallback the only
      outcome for the Gemini client the service uses. Some is a parsed
      list whose every item has an `id` and a `score`; a parsed reply
      lacking either raises outside the `try` and is not modelled. */
  function LlmRerank(documents: seq<Document>, reply: Option<seq<RankItem>>): (r: seq<Document>)
    ensures reply.None? ==> r == documents
    ensures |r| == |documents|
    ensures reply.Some? ==>
              var keys := Keys(documents, reply.value);
              var order := SortIndices(keys, |documents|);
              && Ranked(keys, order)
              && forall p :: 0 <= p < |r| ==> r[p] == documents[order[p]]
  {
    match reply
    case None => documents
    case Some(ranking) => Gather(documents, SortIndices(Keys(documents, ranking), |documents|))
  }

  // -----------------------------------------------------------------------
  // Properties
  // -----------------------------------------------------------------------

  /** The last item listing an id decides its score. */
  lemma {:induction false} LastListedWins(ranking: seq<RankItem>, j: nat)
    requires j < |ranking|
    requires forall j' :: j < j' < |ranking| ==> ranking[j'].id != ranking[j].id
    ensures ScoreOf(ranking, ranking[j].id) == ranking[j].score
    decreases |ranking|
  {
    var n := |ranking|;
    if j < n - 1 {
      var front := ranking[..n - 1];
      assert front[j] == ranking[j];
      assert forall j' :: j < j' < |front| ==> front[j'] == ranking[j'];
      LastListedWins(front, j);
    }
  }

  /** An id the reply does not mention counts as 0. */
  lemma UnlistedScoresZero(ranking: seq<RankItem>, id: string)
    requires forall j :: 0 <= j < |ranking| ==> ranking[j].id != id
    ensures ScoreOf(ranking, id) == 0.0
  {
  }

  /** A parsed reply only reorders the documents: the result is a
      permutation of the input. */
  lemma LlmRerankIsPermutation(documents: seq<Document>, ranking: seq<RankItem>)
    ensures multiset(LlmRerank(documents, Some(ranking))) == multiset(documents)
  {
    GatherSortIsPermutation(documents, Keys(documents, ranking), |documents|);
    assert documents[..|documents|] == documents;
  }

  /** The result is ordered by non-increasing listed score, and documents
      with equal scores keep their input order. */
  lemma LlmRerankOrder(documents: seq<Document>, ranking: seq<RankItem>, p: nat, q: nat)
    requires p < q < |documents|
    ensures var r, order := LlmRerank(documents, Some(ranking)), SortIndices(Keys(documents, ranking), |documents|);
            && ScoreOf(ranking, r[p].id) >= ScoreOf(ranking, r[q].id)
            && (ScoreOf(ranking, r[p].id) == ScoreOf(ranking, r[q].id) ==> order[p] < order[q])
  {
    RankedScores(Keys(documents, ranking), SortIndices(Keys(documents, ranking), |documents|), p, q);
  }
}
