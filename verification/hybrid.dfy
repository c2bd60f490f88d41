/** Hybrid retrieval (`HybridRetriever`): the texts returned by the vector
    index and by BM25 are pooled, each scored by a weighted sum of its
    rank-based vector score and its max-normalised BM25 score, and the best
    `top_k` are returned. */
module Hybrid {
  import opened Common
  import opened Ranking
  import FaissStore
  import Bm25

  // -----------------------------------------------------------------------
  // _extract_texts
  // -----------------------------------------------------------------------

  /** A retriever result item, as far as `_extract_texts` inspects it. */
  datatype Item =
    | IStr(s: string)                  // a str
    | IDict(fields: map<string, Item>) // a dict
    | IList(elems: seq<Item>)          // a list or a tuple
    | IOther                           // anything else (a number, None, ...)

  /** The dictionary keys `_extract_texts` tries, in order. */
  const TextKeys: seq<string> := ["text", "chunk", "content", "document"]

  /** The first of `keys` whose value in the dictionary is a string. */
  function FirstTextField(fields: map<string, Item>, keys: seq<string>): (r: Option<string>)
    ensures r.Some? <==> exists j :: 0 <= j < |keys| && keys[j] in fields && fields[keys[j]].IStr?
    ensures r.Some? ==> exists j :: 0 <= j < |keys| && keys[j] in fields && fields[keys[j]] == IStr(r.value)
                                    && forall j' :: 0 <= j' < j ==> !(keys[j'] in fields && fields[keys[j']].IStr?)
  {
    if keys == [] then None
    else if keys[0] in fields && fields[keys[0]].IStr? then Some(fields[keys[0]].s)
    else
      var r := FirstTextField(fields, keys[1..]);
      assert forall j :: 0 < j < |keys| ==> keys[j] == keys[1..][j - 1];
      r
  }

  /** The text one item contributes: a dict's first string field among
      text/chunk/content/document, the first element of a non-empty list or
      tuple when it is a string, a string itself; nothing otherwise. */
  function PickText(item: Item): (r: Option<string>)
    ensures item.IStr? ==> r == Some(item.s)
    ensures item.IOther? ==> r.None?
    ensures item.IList? ==> (r.Some? <==> item.elems != [] && item.elems[0].IStr?)
    ensures item.IList? && r.Some? ==> item.elems[0] == IStr(r.value)
    ensures item.IDict? && r.Some? ==> exists j :: 0 <= j < |TextKeys| && TextKeys[j] in item.fields
                                                && item.fields[TextKeys[j]] == IStr(r.value)
  {
    match item
    case IStr(s) => Some(s)
    case IDict(fields) => FirstTextField(fields, TextKeys)
    case IList(elems) => if |elems| > 0 && elems[0].IStr? then Some(elems[0].s) else None
    case IOther => None
  }

  function OptionToSeq(o: Option<string>): seq<string>
  {
    if o.Some? then [o.value] else []
  }

  /** What `_extract_texts(results)` returns: one text per item that yields
      one, in the items' order. */
  function Extracted(items: seq<Item>): (texts: seq<string>)
    ensures |texts| <= |items|
  {
    if items == [] then []
    else Extracted(items[..|items| - 1]) + OptionToSeq(PickText(items[|items| - 1]))
  }

  /** `_extract_texts(results)`, the loop over the items. */
  method ExtractTexts(items: seq<Item>) returns (texts: seq<string>)
    ensures texts == Extracted(items)
  {
    texts := [];
    if items == [] {
      return;
    }
    for i := 0 to |items|
      invariant texts == Extracted(items[..i])
    {
      assert items[..i + 1][..i] == items[..i];
      match items[i]
      case IDict(fields) =>
        var t := FirstTextField(fields, TextKeys);
        if t.Some? {
          texts := texts + [t.value];
        }
      case IList(elems) =>
        if |elems| > 0 && elems[0].IStr? {
          texts := texts + [elems[0].s];
        }
      case IStr(s) =>
        texts := texts + [s];
      case IOther =>
    }
    assert items[..|items|] == items;
  }

  /** Extraction works item by item: it distributes over concatenation. */
  lemma {:induction false} ExtractedAppend(a: seq<Item>, b: seq<Item>)
    ensures Extracted(a + b) == Extracted(a) + Extracted(b)
    decreases |b|
  {
    if b == [] {
      assert a + b == a;
    } else {
      var b' := b[..|b| - 1];
      assert (a + b)[..|a + b| - 1] == a + b';
      ExtractedAppend(a, b');
    }
  }

  /** Plain strings are kept as they are. */
  function Strs(ts: seq<string>): (items: seq<Item>)
    ensures |items| == |ts| && forall i :: 0 <= i < |ts| ==> items[i] == IStr(ts[i])
  {
    seq(|ts|, i requires 0 <= i < |ts| => IStr(ts[i]))
  }

  lemma {:induction false} ExtractedStrings(ts: seq<string>)
    ensures Extracted(Strs(ts)) == ts
    decreases |ts|
  {
    if ts != [] {
      var front := ts[..|ts| - 1];
      assert Strs(ts)[..|ts| - 1] == Strs(front);
      ExtractedStrings(front);
      assert front + [ts[|ts| - 1]] == ts;
    }
  }

  /** A metadata value and dictionary as result items. */
  function ValueItem(v: Value): Item
  {
    match v
    case Str(s) => IStr(s)
    case Int(_) => IOther
    case Null => IOther
  }

  function MetaItem(m: Meta): Item
  {
    IDict(map k | k in m :: ValueItem(m[k]))
  }

  function MetaItems(ms: seq<Meta>): (items: seq<Item>)
    ensures |items| == |ms| && forall i :: 0 <= i < |ms| ==> items[i] == MetaItem(ms[i])
  {
    seq(|ms|, i requires 0 <= i < |ms| => MetaItem(ms[i]))
  }

  /** The pair `(texts, metadata)` that `FaissStore.search` returns, as one
      result: a tuple of two lists. */
  function SearchPair(texts: seq<string>, metadata: seq<Meta>): seq<Item>
  {
    [IList(Strs(texts)), IList(MetaItems(metadata))]
  }

  /** Fed `FaissStore.search`'s pair, `_extract_texts` iterates over the two
      lists rather than over the hits: the text list yields its first text,
      the metadata list (whose first element is a dictionary) yields
      nothing. At most one vector hit therefore takes part in the fusion. */
  lemma ExtractedSearchPair(texts: seq<string>, metadata: seq<Meta>)
    ensures Extracted(SearchPair(texts, metadata)) == (if texts == [] then [] else [texts[0]])
  {
    var items := SearchPair(texts, metadata);
    assert items[..1] == [IList(Strs(texts))];
    assert items[..1][..0] == [];
  }

  // -----------------------------------------------------------------------
  // Scores
  // -----------------------------------------------------------------------

  /** `np.linspace(1.0, 0.0, num=n)`: position i of n gets 1 - i/(n-1); a
      single result gets 1. */
  function Linspace(n: nat): (r: seq<real>)
    ensures |r| == n
  {
    if n == 1 then [1.0]
    else seq(n, i requires 0 <= i < n => 1.0 - i as real / (n - 1) as real)
  }

  lemma FractionInUnit(a: real, d: real)
    requires 0.0 <= a <= d && d > 0.0
    ensures 0.0 <= a / d <= 1.0
  {
  }

  lemma FractionStep(a: real, d: real)
    requires d > 0.0
    ensures (1.0 - a / d) - (1.0 - (a + 1.0) / d) == 1.0 / d
  {
  }

  /** The vector scores run from 1 down to 0 in equal steps, and all lie in
      [0, 1]. */
  lemma LinspaceShape(n: nat)
    ensures n == 1 ==> Linspace(n) == [1.0]
    ensures n >= 2 ==> Linspace(n)[0] == 1.0 && Linspace(n)[n - 1] == 0.0
    ensures n >= 2 ==> forall i :: 0 <= i < n - 1 ==> Linspace(n)[i] - Linspace(n)[i + 1] == 1.0 / (n - 1) as real
    ensures forall i :: 0 <= i < n ==> 0.0 <= Linspace(n)[i] <= 1.0
  {
    var r := Linspace(n);
    if n >= 2 {
      forall i | 0 <= i < n ensures 0.0 <= r[i] <= 1.0 {
        FractionInUnit(i as real, (n - 1) as real);
      }
      forall i | 0 <= i < n - 1 ensures r[i] - r[i + 1] == 1.0 / (n - 1) as real {
        FractionStep(i as real, (n - 1) as real);
      }
    }
  }

  /** `bm25_score.max()`. */
  function MaxOf(s: seq<real>): (m: real)
    requires s != []
    ensures m in s
    ensures forall i :: 0 <= i < |s| ==> s[i] <= m
  {
    if |s| == 1 then s[0]
    else
      var m := MaxOf(s[1..]);
      assert forall i :: 1 <= i < |s| ==> s[i] == s[1..][i - 1];
      if s[0] >= m then s[0] else m
  }

  /** The normalised BM25 scores: divided by their maximum when that is
      positive, all zero otherwise. */
  function Normalize(s: seq<real>): (r: seq<real>)
    ensures |r| == |s|
  {
    if s != [] && MaxOf(s) > 0.0 then seq(|s|, i requires 0 <= i < |s| => s[i] / MaxOf(s))
    else seq(|s|, _ => 0.0)
  }

  lemma DivideBelowMax(a: real, m: real)
    requires a <= m && m > 0.0
    ensures a / m <= 1.0 && m / m == 1.0
    ensures a >= 0.0 ==> a / m >= 0.0
  {
  }

  lemma DivideMonotone(a: real, b: real, m: real)
    requires a <= b && m > 0.0
    ensures a / m <= b / m
  {
  }

  /** With a positive maximum every normalised score is at most 1, the best
      raw score becomes exactly 1, and the order of the scores is kept;
      otherwise every score becomes 0. */
  lemma NormalizeShape(s: seq<real>)
    ensures s != [] && MaxOf(s) > 0.0 ==>
              && (forall i :: 0 <= i < |s| ==> Normalize(s)[i] <= 1.0)
              && (exists i :: 0 <= i < |s| && Normalize(s)[i] == 1.0)
              && (forall i, j :: 0 <= i < |s| && 0 <= j < |s| && s[i] <= s[j] ==> Normalize(s)[i] <= Normalize(s)[j])
    ensures !(s != [] && MaxOf(s) > 0.0) ==> forall i :: 0 <= i < |s| ==> Normalize(s)[i] == 0.0
  {
    if s != [] && MaxOf(s) > 0.0 {
      var m, r := MaxOf(s), Normalize(s);
      forall i | 0 <= i < |s| ensures r[i] <= 1.0 {
        assert r[i] == s[i] / m;
        DivideBelowMax(s[i], m);
      }
      forall i, j | 0 <= i < |s| && 0 <= j < |s| && s[i] <= s[j] ensures r[i] <= r[j] {
        assert r[i] == s[i] / m && r[j] == s[j] / m;
        DivideMonotone(s[i], s[j], m);
      }
      var k :| 0 <= k < |s| && s[k] == m;
      assert r[k] == m / m;
      DivideBelowMax(s[k], m);
    }
  }

  /** Non-negative raw scores normalise into [0, 1]. */
  lemma NormalizeInUnit(s: seq<real>)
    requires forall i :: 0 <= i < |s| ==> s[i] >= 0.0
    ensures forall i :: 0 <= i < |s| ==> 0.0 <= Normalize(s)[i] <= 1.0
  {
    if s != [] && MaxOf(s) > 0.0 {
      forall i | 0 <= i < |s| ensures 0.0 <= Normalize(s)[i] <= 1.0 {
        assert Normalize(s)[i] == s[i] / MaxOf(s);
        DivideBelowMax(s[i], MaxOf(s));
      }
    }
  }

  /** `s.index(x)`: the first position holding x. */
  function IndexOf(s: seq<string>, x: string): (i: nat)
    requires x in s
    ensures i < |s| && s[i] == x
    ensures forall j :: 0 <= j < i ==> s[j] != x
  {
    if s[0] == x then 0 else 1 + IndexOf(s[1..], x)
  }

  /** The vector score of a text: the score at its first occurrence, 0 when
      absent. It lies in [0, 1], and the first vector hit scores 1. */
  function VectorScore(vec: seq<string>, t: string): (v: real)
    ensures 0.0 <= v <= 1.0
    ensures t !in vec ==> v == 0.0
    ensures vec != [] && t == vec[0] ==> v == 1.0
  {
    LinspaceShape(|vec|);
    if t in vec then Linspace(|vec|)[IndexOf(vec, t)] else 0.0
  }

  /** The BM25 score of a text: the normalised score at its first
      occurrence, 0 when absent; None when that position has no score (the
      array lookup raises IndexError). */
  function Bm25Score(bm: seq<string>, bmScores: seq<real>, t: string): (b: Option<real>)
    ensures b.None? <==> t in bm && IndexOf(bm, t) >= |bmScores|
  {
    if t !in bm then Some(0.0)
    else if IndexOf(bm, t) < |bmScores| then Some(Normalize(bmScores)[IndexOf(bm, t)])
    else None
  }

  /** The fused score `alpha * v_score + (1 - alpha) * b_score`. */
  function FusedScore(vec: seq<string>, bm: seq<string>, bmScores: seq<real>, alpha: real, t: string): (f: Option<real>)
    ensures f.None? <==> t in bm && IndexOf(bm, t) >= |bmScores|
  {
    match Bm25Score(bm, bmScores, t)
    case None => None
    case Some(b) => Some(Weighted(alpha, VectorScore(vec, t), b))
  }

  /** `alpha * v + (1 - alpha) * b`: all vector score at alpha 1, all BM25
      score at alpha 0, and the common value when the two agree. */
  function Weighted(alpha: real, v: real, b: real): (w: real)
    ensures alpha == 1.0 ==> w == v
    ensures alpha == 0.0 ==> w == b
    ensures v == b ==> w == v
  {
    alpha * v + (1.0 - alpha) * b
  }

  lemma ScaleBelow(a: real, x: real) returns (p: real)
    requires 0.0 <= a && 0.0 <= x <= 1.0
    ensures p == a * x && 0.0 <= p <= a
  {
    p := a * x;
    assert a * (1.0 - x) >= 0.0;
    assert a * (1.0 - x) == a - a * x;
  }

  lemma WeightedInUnit(alpha: real, v: real, b: real)
    requires 0.0 <= alpha <= 1.0 && 0.0 <= v <= 1.0 && 0.0 <= b <= 1.0
    ensures 0.0 <= Weighted(alpha, v, b) <= 1.0
  {
    var x := ScaleBelow(alpha, v);
    var y := ScaleBelow(1.0 - alpha, b);
    assert x + y <= 1.0;
  }

  lemma VectorScoreInUnit(vec: seq<string>, t: string)
    ensures 0.0 <= VectorScore(vec, t) <= 1.0
  {
    LinspaceShape(|vec|);
  }

  lemma Bm25ScoreInUnit(bm: seq<string>, bmScores: seq<real>, t: string)
    requires forall i :: 0 <= i < |bmScores| ==> bmScores[i] >= 0.0
    ensures Bm25Score(bm, bmScores, t).Some? ==> 0.0 <= Bm25Score(bm, bmScores, t).value <= 1.0
  {
    NormalizeInUnit(bmScores);
  }

  /** With a weight in [0, 1] and non-negative BM25 scores every fused
      score lies in [0, 1]. */
  lemma FusedScoreInUnit(vec: seq<string>, bm: seq<string>, bmScores: seq<real>, alpha: real, t: string)
    requires 0.0 <= alpha <= 1.0
    requires forall i :: 0 <= i < |bmScores| ==> bmScores[i] >= 0.0
    ensures var f := FusedScore(vec, bm, bmScores, alpha, t);
            f.Some? ==> 0.0 <= f.value <= 1.0
  {
    VectorScoreInUnit(vec, t);
    Bm25ScoreInUnit(bm, bmScores, t);
    var b := Bm25Score(bm, bmScores, t);
    if b.Some? {
      WeightedInUnit(alpha, VectorScore(vec, t), b.value);
    }
  }

  /** A text that both retrievers rank first, with a positive best BM25
      score, gets the full fused score 1 whatever the weight. */
  lemma FusedScoreOfTopHit(vec: seq<string>, bm: seq<string>, bmScores: seq<real>, alpha: real, t: string)
    requires vec != [] && vec[0] == t && bm != [] && bm[0] == t
    requires bmScores != [] && bmScores[0] == MaxOf(bmScores) > 0.0
    ensures FusedScore(vec, bm, bmScores, alpha, t) == Some(1.0)
  {
    assert IndexOf(vec, t) == 0 && IndexOf(bm, t) == 0;
    LinspaceShape(|vec|);
    assert VectorScore(vec, t) == 1.0;
    DivideBelowMax(bmScores[0], MaxOf(bmScores));
    assert Normalize(bmScores)[0] == bmScores[0] / MaxOf(bmScores);
    assert Bm25Score(bm, bmScores, t) == Some(1.0);
    assert Weighted(alpha, 1.0, 1.0) == 1.0;
  }

  /** Every candidate's BM25 lookup succeeds. */
  predicate Scorable(bm: seq<string>, bmScores: seq<real>)
  {
    forall j :: 0 <= j < |bm| ==> IndexOf(bm, bm[j]) < |bmScores|
  }

  /** The pooled candidates: `set(vector_results + bm25_results)`. */
  function Candidates(vec: seq<string>, bm: seq<string>): (c: set<string>)
    ensures forall t :: t in c <==> t in vec || t in bm
    ensures c == {} <==> vec == [] && bm == []
  {
    assert vec != [] ==> (vec + bm)[0] in vec + bm;
    assert bm != [] ==> (vec + bm)[|vec|] in vec + bm;
    set t | t in vec + bm
  }

  /** `list(some_set)`: the elements in an order the model leaves open. */
  method ListOfSet(s: set<string>) returns (l: seq<string>)
    ensures Distinct(l) && |l| == |s|
    ensures forall x :: x in l <==> x in s
  {
    l := [];
    var rest := s;
    while rest != {}
      invariant rest <= s && |l| + |rest| == |s|
      invariant forall x :: x in l <==> x in s && x !in rest
      invariant Distinct(l)
      decreases |rest|
    {
      var x :| x in rest;
      l := l + [x];
      rest := rest - {x};
    }
  }

  /** The loop and sort of `retrieve` for a given scoring of the candidates:
      `list(set(...))` in an order left open, one `(text, score)` pair per
      candidate, a stable descending sort and the first `topK`. A candidate
      without a score stops the loop with IndexError. */
  method RankCandidates(candidates: set<string>, score: string -> Option<real>, topK: nat)
    returns (r: Result<seq<string>>)
    ensures r.Err? <==> exists t :: t in candidates && score(t).None?
    ensures r.Err? ==> r.error == IndexError
    ensures r.Ok? ==>
              && Distinct(r.value)
              && |r.value| == Min(topK, |candidates|)
              && (forall p :: 0 <= p < |r.value| ==> r.value[p] in candidates)
              && (forall p, q :: 0 <= p < q < |r.value| ==> score(r.value[p]).value >= score(r.value[q]).value)
              && (forall t, p :: t in candidates && t !in r.value && 0 <= p < |r.value| ==>
                    score(t).value <= score(r.value[p]).value)
  {
    var all := ListOfSet(candidates);
    var combined: seq<(string, real)> := [];
    for i := 0 to |all|
      invariant |combined| == i
      invariant forall j :: 0 <= j < i ==> score(all[j]).Some? && combined[j] == (all[j], score(all[j]).value)
    {
      var t := all[i];
      var f := score(t);
      if f.None? {
        return Err(IndexError);
      }
      combined := combined + [(t, f.value)];
    }
    assert forall t :: t in candidates ==> score(t).Some? by {
      forall t | t in candidates ensures score(t).Some? {
        var i :| 0 <= i < |all| && all[i] == t;
      }
    }
    var scores := seq(|combined|, j requires 0 <= j < |combined| => combined[j].1);
    var ranked := Gather(all, TopIndices(scores, topK));
    TopOfScored(all, score, scores, topK);
    r := Ok(ranked);
  }

  /** The first `topK` of the candidates in stable descending score order:
      distinct candidates, best first, none left out scoring higher. */
  lemma TopOfScored(all: seq<string>, score: string -> Option<real>, scores: seq<real>, topK: nat)
    requires Distinct(all) && |scores| == |all|
    requires forall j :: 0 <= j < |all| ==> score(all[j]).Some? && scores[j] == score(all[j]).value
    ensures var ranked := Gather(all, TopIndices(scores, topK));
            && Distinct(ranked)
            && |ranked| == Min(topK, |all|)
            && (forall p :: 0 <= p < |ranked| ==> ranked[p] in all)
            && (forall p, q :: 0 <= p < q < |ranked| ==> score(ranked[p]).value >= score(ranked[q]).value)
            && (forall t, p :: t in all && t !in ranked && 0 <= p < |ranked| ==>
                  score(t).value <= score(ranked[p]).value)
  {
    var idx := TopIndices(scores, topK);
    var ranked := Gather(all, idx);
    TopOrder(all, score, scores, topK);
    TopBest(all, score, scores, topK);
  }

  lemma TopOrder(all: seq<string>, score: string -> Option<real>, scores: seq<real>, topK: nat)
    requires Distinct(all) && |scores| == |all|
    requires forall j :: 0 <= j < |all| ==> score(all[j]).Some? && scores[j] == score(all[j]).value
    ensures var ranked := Gather(all, TopIndices(scores, topK));
            && Distinct(ranked)
            && (forall p, q :: 0 <= p < q < |ranked| ==> score(ranked[p]).value >= score(ranked[q]).value)
  {
    var idx := TopIndices(scores, topK);
    var ranked := Gather(all, idx);
    forall p, q | 0 <= p < q < |ranked|
      ensures ranked[p] != ranked[q] && score(ranked[p]).value >= score(ranked[q]).value
    {
      RankedScores(scores, idx, p, q);
      assert ranked[p] == all[idx[p]] && ranked[q] == all[idx[q]];
    }
  }

  lemma TopBest(all: seq<string>, score: string -> Option<real>, scores: seq<real>, topK: nat)
    requires |scores| == |all|
    requires forall j :: 0 <= j < |all| ==> score(all[j]).Some? && scores[j] == score(all[j]).value
    ensures var ranked := Gather(all, TopIndices(scores, topK));
            forall t, p :: t in all && t !in ranked && 0 <= p < |ranked| ==>
              score(t).value <= score(ranked[p]).value
  {
    var idx := TopIndices(scores, topK);
    var ranked := Gather(all, idx);
    forall t, p | t in all && t !in ranked && 0 <= p < |ranked|
      ensures score(t).value <= score(ranked[p]).value
    {
      var i :| 0 <= i < |all| && all[i] == t;
      assert i !in idx;
      assert Before(scores, idx[p], i);
      assert ranked[p] == all[idx[p]];
    }
  }

  /** A candidate's fused score is missing exactly when the BM25 lookups
      are not all in range. */
  lemma ScorableCandidates(vec: seq<string>, bm: seq<string>, bmScores: seq<real>, alpha: real)
    ensures (exists t :: t in Candidates(vec, bm) && FusedScore(vec, bm, bmScores, alpha, t).None?)
            <==> !Scorable(bm, bmScores)
  {
    if !Scorable(bm, bmScores) {
      var j :| 0 <= j < |bm| && IndexOf(bm, bm[j]) >= |bmScores|;
      assert bm[j] in vec + bm;
      assert FusedScore(vec, bm, bmScores, alpha, bm[j]).None?;
    }
    if t :| t in Candidates(vec, bm) && FusedScore(vec, bm, bmScores, alpha, t).None? {
      var j := IndexOf(bm, t);
      assert IndexOf(bm, bm[j]) == j;
    }
  }

  /** What the fusion promises of its output `out`: every BM25 text has a
      score; `out` holds the best `topK` candidates of the two lists by
      fused score, each once, in non-increasing order of that score (ties
      in any order), and no candidate left out scores above one kept. */
  predicate FusedTopK(vec: seq<string>, bm: seq<string>, bmScores: seq<real>, alpha: real, topK: nat, out: seq<string>)
  {
    && Scorable(bm, bmScores)
    && Distinct(out)
    && |out| == Min(topK, |Candidates(vec, bm)|)
    && (forall p :: 0 <= p < |out| ==> out[p] in vec || out[p] in bm)
    && (forall p, q :: 0 <= p < q < |out| ==>
          FusedScore(vec, bm, bmScores, alpha, out[p]).value
          >= FusedScore(vec, bm, bmScores, alpha, out[q]).value)
    && (forall t, p :: t in Candidates(vec, bm) && t !in out && 0 <= p < |out| ==>
          FusedScore(vec, bm, bmScores, alpha, t).value
          <= FusedScore(vec, bm, bmScores, alpha, out[p]).value)
  }

  /** The fusion step of `retrieve`, from the extracted texts and the raw
      BM25 scores: the best `topK` candidates by fused score, without
      repetition, drawn from both lists; their order is non-increasing in
      the fused score, ties in whatever order the set yields them. */
  method Fuse(vec: seq<string>, bm: seq<string>, bmScores: seq<real>, alpha: real, topK: nat)
    returns (r: Result<seq<string>>)
    ensures r.Err? <==> !Scorable(bm, bmScores)
    ensures r.Err? ==> r.error == IndexError
    ensures r.Ok? ==> FusedTopK(vec, bm, bmScores, alpha, topK, r.value)
  {
    ScorableCandidates(vec, bm, bmScores, alpha);
    r := RankCandidates(Candidates(vec, bm), t => FusedScore(vec, bm, bmScores, alpha, t), topK);
    if r.Ok? {
      forall p | 0 <= p < |r.value| ensures r.value[p] in vec || r.value[p] in bm {
        assert r.value[p] in vec + bm;
      }
    }
  }

  /** With nothing from either retriever the result is empty. */
  lemma NothingInNothingOut(bmScores: seq<real>)
    ensures Candidates([], []) == {}
    ensures Scorable([], bmScores)
  {
    var none: seq<string> := [];
    assert none + none == none;
  }

  /** Texts BM25 hands over with one score each always score. */
  lemma {:induction false} ScorableWhenAligned(bm: seq<string>, bmScores: seq<real>)
    requires |bm| <= |bmScores|
    ensures Scorable(bm, bmScores)
  {
  }

  // -----------------------------------------------------------------------
  // The retriever
  // -----------------------------------------------------------------------

  class HybridRetriever {
    var vectorStore: FaissStore.FaissStore
    var bm25: Bm25.Bm25Retriever
    var alpha: real

    constructor (vectorStore: FaissStore.FaissStore, bm25: Bm25.Bm25Retriever, alpha: real)
      ensures this.vectorStore == vectorStore && this.bm25 == bm25 && this.alpha == alpha
    {
      this.vectorStore := vectorStore;
      this.bm25 := bm25;
      this.alpha := alpha;
    }

    /** `retrieve(query_emb, query_text, top_k)` over the service's two
        retrievers. A failing vector search propagates its error. Otherwise
        the fusion sees at most the first vector hit (the search pair is
        extracted as two items) together with BM25's texts and scores, and
        returns the best `topK` of them by fused score, without repetition,
        in non-increasing order of that score. */
    method Retrieve(queryEmb: seq<real>, queryText: string, topK: nat, score: Bm25.Scorer)
      returns (r: Result<seq<string>>)
      requires vectorStore.Valid() && bm25.Valid()
      ensures vectorStore.Search(queryEmb, topK).Err? ==> r == Err(vectorStore.Search(queryEmb, topK).error)
      ensures vectorStore.Search(queryEmb, topK).Ok? ==> r.Ok?
      ensures r.Ok? ==>
                var hits := vectorStore.Search(queryEmb, topK).value.0;
                var lexical := bm25.Retrieve(queryText, topK, score);
                && FusedTopK(if hits == [] then [] else [hits[0]], lexical.0, lexical.1, alpha, topK, r.value)
                && |r.value| <= topK
                && (forall p :: 0 <= p < |r.value| ==> r.value[p] in lexical.0 || (hits != [] && r.value[p] == hits[0]))
    {
      var searched := vectorStore.Search(queryEmb, topK);
      if searched.Err? {
        return Err(searched.error);
      }
      var raw := SearchPair(searched.value.0, searched.value.1);
      var vec := ExtractTexts(raw);
      ExtractedSearchPair(searched.value.0, searched.value.1);
      var lexical := bm25.Retrieve(queryText, topK, score);
      var bmRaw, bmScores := lexical.0, lexical.1;
      var bm := ExtractTexts(Strs(bmRaw));
      ExtractedStrings(bmRaw);
      ScorableWhenAligned(bm, bmScores);
      r := Fuse(vec, bm, bmScores, alpha, topK);
    }
  }
}
