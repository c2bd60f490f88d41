/** The positional metadata filter (`MetadataFilter`): document i is kept
    when the i-th metadata dictionary agrees with every key/value pair of
    the query. */
module Filters {
  import opened Common
  import opened Ranking

  /** `all(meta.get(k) == v for k, v in filter_query.items())`; a key the
      metadata lacks reads as None. */
  predicate Matches(meta: Meta, query: Meta)
    ensures query == map[] ==> Matches(meta, query)
    ensures (forall k :: k in query ==> k in meta && meta[k] == query[k]) ==> Matches(meta, query)
    ensures Matches(meta, query) ==> forall k :: k in query && k in meta ==> meta[k] == query[k]
    ensures Matches(meta, query) ==> forall k :: k in query && k !in meta ==> query[k] == Null
  {
    forall k :: k in query ==> Get(meta, k) == query[k]
  }

  /** The positions below n whose metadata matches, in increasing order. */
  function KeptIndices(metas: seq<Meta>, query: Meta, n: nat): (r: seq<nat>)
    requires n <= |metas|
    ensures forall p :: 0 <= p < |r| ==> r[p] < n
    ensures forall p, q :: 0 <= p < q < |r| ==> r[p] < r[q]
  {
    if n == 0 then []
    else
      var front := KeptIndices(metas, query, n - 1);
      if Matches(metas[n - 1], query) then front + [n - 1] else front
  }

  /** Exactly the matching positions below n are kept. */
  lemma {:induction false} KeptIndicesMembers(metas: seq<Meta>, query: Meta, n: nat)
    requires n <= |metas|
    ensures forall i :: i in KeptIndices(metas, query, n) <==> 0 <= i < n && Matches(metas[i], query)
  {
    if n > 0 {
      KeptIndicesMembers(metas, query, n - 1);
    }
  }

  lemma GatherSnoc<T>(s: seq<T>, idx: seq<nat>, x: nat)
    requires forall p :: 0 <= p < |idx| ==> idx[p] < |s|
    requires x < |s|
    ensures Gather(s, idx + [x]) == Gather(s, idx) + [s[x]]
  {
    var l, r := Gather(s, idx + [x]), Gather(s, idx) + [s[x]];
    assert |l| == |r|;
    forall p | 0 <= p < |l| ensures l[p] == r[p] {
      assert (idx + [x])[p] == if p < |idx| then idx[p] else x;
    }
  }

  /** One more position: its document is appended when it matches. */
  lemma KeptStep(metas: seq<Meta>, query: Meta, docs: seq<string>, n: nat)
    requires n < |metas| && n < |docs|
    ensures Gather(docs, KeptIndices(metas, query, n + 1))
            == Gather(docs, KeptIndices(metas, query, n)) + (if Matches(metas[n], query) then [docs[n]] else [])
  {
    var front := KeptIndices(metas, query, n);
    if Matches(metas[n], query) {
      GatherSnoc(docs, front, n);
    }
  }

  /** When every position matches, every position is kept. */
  lemma {:induction false} KeptAllWhenAllMatch(metas: seq<Meta>, query: Meta, n: nat)
    requires n <= |metas|
    requires forall i :: 0 <= i < n ==> Matches(metas[i], query)
    ensures |KeptIndices(metas, query, n)| == n
    ensures forall p :: 0 <= p < n ==> KeptIndices(metas, query, n)[p] == p
  {
    if n > 0 {
      KeptAllWhenAllMatch(metas, query, n - 1);
    }
  }

  /** With an empty query every document is kept. */
  lemma EmptyQueryKeepsAll(metas: seq<Meta>, docs: seq<string>)
    requires |docs| <= |metas|
    ensures Gather(docs, KeptIndices(metas, map[], |docs|)) == docs
  {
    KeptAllWhenAllMatch(metas, map[], |docs|);
  }

  class MetadataFilter {
    /** The positional list of metadata dictionaries given to `__init__`. */
    var metadataStore: seq<Meta>

    constructor (metadataStore: seq<Meta>)
      ensures this.metadataStore == metadataStore
    {
      this.metadataStore := metadataStore;
    }

    /** `filter(docs, filter_query)` as it is written: the loop body reads
        `self.metadata`, an attribute the constructor never sets, so the
        first document raises AttributeError; only an empty `docs` gets
        through, to `[]`. */
    static function FilterAsWritten(docs: seq<string>, query: Meta): (r: Result<seq<string>>)
      ensures docs == [] <==> r == Ok([])
      ensures docs != [] <==> r == Err(AttributeError)
    {
      if docs == [] then Ok([]) else Err(AttributeError)
    }

    /** `filter(docs, filter_query)` reading the list the constructor
        stored. The result is the order-preserving subsequence of `docs` at
        the matching positions; looking up a position past the metadata
        list raises IndexError; empty `docs` reads no metadata. */
    method Filter(docs: seq<string>, query: Meta) returns (r: Result<seq<string>>)
      ensures |docs| > |metadataStore| ==> r == Err(IndexError)
      ensures |docs| <= |metadataStore| ==> r == Ok(Gather(docs, KeptIndices(metadataStore, query, |docs|)))
      ensures docs == [] ==> r == Ok([])
    {
      var results: seq<string> := [];
      var idx := 0;
      while idx < |docs|
        invariant idx <= |docs| && idx <= |metadataStore|
        invariant results == Gather(docs, KeptIndices(metadataStore, query, idx))
      {
        if idx >= |metadataStore| {
          return Err(IndexError);
        }
        var meta := metadataStore[idx];
        KeptStep(metadataStore, query, docs, idx);
        if Matches(meta, query) {
          results := results + [docs[idx]];
        }
        idx := idx + 1;
      }
      r := Ok(results);
    }
  }

  /** The name mismatch loses every answer: on any non-empty `docs` with
      enough metadata and an empty query, the code as written raises while
      the intended filter returns all of `docs`. */
  lemma AsWrittenRaisesWhereIntendedKeepsAll(metas: seq<Meta>, docs: seq<string>)
    requires docs != [] && |docs| <= |metas|
    ensures MetadataFilter.FilterAsWritten(docs, map[]) == Err(AttributeError)
    ensures Gather(docs, KeptIndices(metas, map[], |docs|)) == docs
  {
    EmptyQueryKeepsAll(metas, docs);
  }

  /** The concrete input `docs = ["manual"]`, one empty metadata dictionary,
      an empty query. */
  method AsWrittenCounterexample() returns (asWritten: Result<seq<string>>, intended: Result<seq<string>>)
    ensures asWritten == Err(AttributeError) && intended == Ok(["manual"])
  {
    var f := new MetadataFilter([map[]]);
    asWritten := MetadataFilter.FilterAsWritten(["manual"], map[]);
    intended := f.Filter(["manual"], map[]);
    EmptyQueryKeepsAll([map[]], ["manual"]);
  }
}
