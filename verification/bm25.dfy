/** The lexical index (`BM25Retriever`): a tokenizer, an append-only corpus
    whose tokenized copy is rebuilt on every add, and top-k selection by
    BM25 score. The Okapi scoring formula is a parameter. */
module Bm25 {
  import opened Common
  import opened TextRuns
  import opened Ranking

  /** `str.lower()` on ASCII letters; every other character is kept. The
      result is never an upper-case letter, so lowering twice changes
      nothing, and a character is a word character exactly when its lower case is. */
  function LowerChar(c: char): (r: char)
    ensures !('A' <= r <= 'Z')
    ensures !('A' <= c <= 'Z') ==> r == c
    ensures IsWordChar(r) <==> IsWordChar(c)
  {
    if 'A' <= c <= 'Z' then (c as int + 32) as char else c
  }

  function Lower(s: string): (r: string)
    ensures |r| == |s| && forall i :: 0 <= i < |s| ==> r[i] == LowerChar(s[i])
  {
    seq(|s|, i requires 0 <= i < |s| => LowerChar(s[i]))
  }

  /** The characters `\w` matches, over ASCII: letters, digits, underscore. */
  predicate IsWordChar(c: char)
    ensures IsWordChar(c) ==> c as int < 128
  {
    'a' <= c <= 'z' || 'A' <= c <= 'Z' || '0' <= c <= '9' || c == '_'
  }

  /** `_tokenize`: `re.findall(r'\w+', text.lower())`, the maximal runs of
      word characters of the lower-cased text. */
  function Tokenize(text: string): (tokens: seq<string>)
    ensures forall k :: 0 <= k < |tokens| ==> tokens[k] != []
    ensures forall k, i :: 0 <= k < |tokens| && 0 <= i < |tokens[k]| ==> IsWordChar(tokens[k][i])
  {
    RunsInClass(Lower(text), IsWordChar);
    Runs(Lower(text), IsWordChar)
  }

  /** `[self._tokenize(chunk) for chunk in chunks]`. */
  function TokenizeAll(chunks: seq<string>): (r: seq<seq<string>>)
    ensures |r| == |chunks| && forall i :: 0 <= i < |chunks| ==> r[i] == Tokenize(chunks[i])
  {
    seq(|chunks|, i requires 0 <= i < |chunks| => Tokenize(chunks[i]))
  }

  /** A `BM25Okapi` object: the corpus it was built over. */
  datatype Okapi = Okapi(corpus: seq<seq<string>>)

  /** The Okapi score of document i of a corpus for a tokenized query. */
  type Scorer = (seq<seq<string>>, seq<string>, nat) -> real

  class Bm25Retriever {
    var textChunks: seq<string>
    var tokenizedChunks: seq<seq<string>>
    var bm25: Option<Okapi>

    /** The tokenized copy follows the chunks, the Okapi index (when there
        is one) is built over that copy, and there is always one once any
        chunk is present. */
    ghost predicate Valid()
      reads this
    {
      && tokenizedChunks == TokenizeAll(textChunks)
      && (bm25.Some? ==> bm25.value.corpus == tokenizedChunks)
      && (bm25.None? ==> textChunks == [])
    }

    /** `__init__(text_chunks)`: `None` and `[]` both give an empty
        retriever without an index. */
    constructor (chunks: Option<seq<string>>)
      ensures textChunks == (if chunks.Some? then chunks.value else [])
      ensures tokenizedChunks == TokenizeAll(textChunks)
      ensures bm25 == (if textChunks == [] then None else Some(Okapi(tokenizedChunks)))
      ensures Valid()
    {
      var texts := if chunks.Some? then chunks.value else [];
      var tokenized := TokenizeAll(texts);
      textChunks := texts;
      tokenizedChunks := tokenized;
      bm25 := if tokenized != [] then Some(Okapi(tokenized)) else None;
    }

    /** `add_documents`: the new texts go at the end, the tokenized copy and
        the index are rebuilt over the whole corpus. */
    method AddDocuments(newTexts: seq<string>)
      modifies this
      ensures textChunks == old(textChunks) + newTexts
      ensures tokenizedChunks == TokenizeAll(textChunks)
      ensures bm25 == Some(Okapi(tokenizedChunks))
      ensures Valid()
    {
      textChunks := textChunks + newTexts;
      tokenizedChunks := TokenizeAll(textChunks);
      bm25 := Some(Okapi(tokenizedChunks));
    }

    /** `self.bm25.get_scores(tokenized_query)`: one score per corpus
        document. */
    function Scores(query: string, score: Scorer): (sc: seq<real>)
      reads this
      requires Valid() && bm25.Some?
      ensures |sc| == |textChunks|
    {
      var corpus := bm25.value.corpus;
      seq(|corpus|, i requires 0 <= i < |corpus| => score(corpus, Tokenize(query), i))
    }

    /** `retrieve(query, top_k)`: the texts of the top_k best-scoring chunks
        and their scores, best first. */
    function Retrieve(query: string, topK: nat, score: Scorer): (r: (seq<string>, seq<real>))
      reads this
      requires Valid()
      ensures bm25.None? ==> r == ([], [])
      ensures bm25.Some? ==>
                var sc, idx := Scores(query, score), TopIndices(Scores(query, score), topK);
                && |r.0| == |r.1| == |idx| == Min(topK, |textChunks|)
                && (forall p :: 0 <= p < |idx| ==> r.0[p] == textChunks[idx[p]] && r.1[p] == sc[idx[p]])
                && (forall p, q :: 0 <= p < q < |r.1| ==> r.1[p] >= r.1[q])
    {
      if bm25.None? then ([], [])
      else
        var sc := Scores(query, score);
        var idx := TopIndices(sc, topK);
        RankedScoresNonIncreasing(sc, idx);
        (Gather(textChunks, idx), Gather(sc, idx))
    }
  }

  // -----------------------------------------------------------------------
  // Tokenizer properties
  // -----------------------------------------------------------------------

  lemma LowerSplit(a: string, c: char, b: string)
    ensures Lower(a + [c] + b) == Lower(a) + [LowerChar(c)] + Lower(b)
  {
    var l, r := Lower(a + [c] + b), Lower(a) + [LowerChar(c)] + Lower(b);
    assert |l| == |r|;
    forall i | 0 <= i < |l| ensures l[i] == r[i] {
      if i < |a| {
      } else if i == |a| {
      } else {
        assert (a + [c] + b)[i] == b[i - |a| - 1];
      }
    }
  }

  /** A non-word character separates tokens: tokens never span it. */
  lemma TokenizeSplit(a: string, c: char, b: string)
    requires !IsWordChar(c)
    ensures Tokenize(a + [c] + b) == Tokenize(a) + Tokenize(b)
  {
    LowerSplit(a, c, b);
    assert !IsWordChar(LowerChar(c));
    RunsSplit(Lower(a), LowerChar(c), Lower(b), IsWordChar);
  }

  /** A non-empty run of word characters is one token, lower-cased. */
  lemma TokenizeWord(w: string)
    requires w != [] && forall i :: 0 <= i < |w| ==> IsWordChar(w[i])
    ensures Tokenize(w) == [Lower(w)]
  {
    RunsOfRun(Lower(w), IsWordChar);
  }

  /** The tokens together hold exactly the word characters of the
      lower-cased text, in order: nothing is dropped but separators. */
  lemma TokenizeKeepsWordChars(text: string)
    ensures Flatten(Tokenize(text)) == Filter(Lower(text), IsWordChar)
  {
    FlattenRuns(Lower(text), IsWordChar);
  }

  // -----------------------------------------------------------------------
  // Retriever properties
  // -----------------------------------------------------------------------

  /** Rebuilding the tokenized copy after an append gives the old copy
      followed by the new texts' tokens. */
  lemma TokenizeAllAppend(a: seq<string>, b: seq<string>)
    ensures TokenizeAll(a + b) == TokenizeAll(a) + TokenizeAll(b)
  {
    var l, r := TokenizeAll(a + b), TokenizeAll(a) + TokenizeAll(b);
    forall i | 0 <= i < |l| ensures l[i] == r[i] {
      if i >= |a| {
        assert (a + b)[i] == b[i - |a|];
      }
    }
  }

  /** A retriever built from no chunks has no index and retrieves nothing. */
  method EmptyRetrieverRetrievesNothing(chunks: Option<seq<string>>, query: string, topK: nat, score: Scorer)
    returns (r: (seq<string>, seq<real>))
    requires chunks.None? || chunks.value == []
    ensures r == ([], [])
  {
    var retriever := new Bm25Retriever(chunks);
    r := retriever.Retrieve(query, topK, score);
  }

  /** The retrieved chunks come from distinct corpus positions, every chunk
      left out scores no higher than any chunk returned, and chunks with equal
      scores appear in corpus order. */
  lemma RetrieveIsTopK(r: Bm25Retriever, query: string, topK: nat, score: Scorer)
    requires r.Valid() && r.bm25.Some?
    ensures var sc, idx := r.Scores(query, score), TopIndices(r.Scores(query, score), topK);
            && Distinct(idx)
            && (forall i, p :: 0 <= i < |sc| && i !in idx && 0 <= p < |idx| ==> sc[i] <= sc[idx[p]])
            && (forall p, q :: 0 <= p < q < |idx| && sc[idx[p]] == sc[idx[q]] ==> idx[p] < idx[q])
  {
    TopIndicesFacts(r.Scores(query, score), topK);
  }
}
