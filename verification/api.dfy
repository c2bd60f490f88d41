/** The service layer (`app/api.py`): one vector store, one BM25 retriever
    and one document catalog shared by the upload, delete and query
    endpoints, with a hybrid retriever over the first two. The embedding
    model is the parameter `embed`; the file system, the background save,
    the lock and the language-model call are not modelled. */
module Api {
  import opened Common
  import Preprocessor
  import Bm25
  import FaissStore
  import MetadataStore
  import Hybrid
  import Ranking

  /** `TextPreprocessor(chunk_size=400, overlap=100)`. */
  const ChunkSize := 400
  const Overlap := 100

  /** `FaissStore(dimension=384)`, the size of the sentence embeddings. */
  const Dimension := 384

  /** `top_k=3`, the number of chunks every query mode retrieves. */
  const QueryTopK := 3

  /** `alpha=0.5`, the hybrid retriever's weight of the vector score. */
  const Alpha := 0.5

  /** `os.path.join("uploads_files", filename)` under POSIX rules: an
      absolute file name replaces the directory, any other name is
      appended after a separator. */
  function UploadPath(filename: string): string
  {
    if |filename| > 0 && filename[0] == '/' then filename else "uploads_files/" + filename
  }

  /** `embed(chunks)`: one vector per chunk. */
  function EmbedAll(chunks: seq<string>, embed: string -> seq<real>): (e: seq<seq<real>>)
    ensures |e| == |chunks| && forall i :: 0 <= i < |chunks| ==> e[i] == embed(chunks[i])
  {
    seq(|chunks|, i requires 0 <= i < |chunks| => embed(chunks[i]))
  }

  /** `[{"source": filename, "chunk_index": i} for i in range(n)]`. */
  function ChunkMetadata(filename: string, n: nat): (m: seq<Meta>)
    ensures |m| == n
    ensures forall i :: 0 <= i < n ==> m[i] == map["source" := Str(filename), "chunk_index" := Int(i)]
  {
    seq(n, i requires 0 <= i < n => map["source" := Str(filename), "chunk_index" := Int(i)])
  }

  /** A catalog record names a range of the stored chunks of exactly its
      chunk count. */
  predicate InRange(rec: MetadataStore.DocRecord, stored: nat)
    ensures InRange(rec, stored) ==> 0 <= rec.numChunks <= stored
  {
    0 <= rec.startIdx <= rec.endIdx <= stored && rec.numChunks == rec.endIdx - rec.startIdx
  }

  /** The chunk counts of the listed documents, summed. */
  function SumChunks(ids: seq<string>, records: map<string, MetadataStore.DocRecord>): (total: int)
    ensures (forall p :: 0 <= p < |ids| ==> ids[p] !in records) ==> total == 0
  {
    if ids == [] then 0
    else (if ids[0] in records then records[ids[0]].numChunks else 0) + SumChunks(ids[1..], records)
  }

  /** Appending an id adds its count. */
  lemma {:induction false} SumChunksAppend(ids: seq<string>, id: string, records: map<string, MetadataStore.DocRecord>)
    requires id in records
    ensures SumChunks(ids + [id], records) == SumChunks(ids, records) + records[id].numChunks
  {
    if ids == [] {
      assert [id][1..] == [];
    } else {
      assert (ids + [id])[1..] == ids[1..] + [id];
      SumChunksAppend(ids[1..], id, records);
    }
  }

  /** Adding a record under an id that is not listed changes no sum. */
  lemma {:induction false} SumChunksFrame(ids: seq<string>, id: string, rec: MetadataStore.DocRecord,
                                          records: map<string, MetadataStore.DocRecord>)
    requires id !in ids
    ensures SumChunks(ids, records[id := rec]) == SumChunks(ids, records)
  {
    if ids != [] {
      assert id !in ids[1..];
      SumChunksFrame(ids[1..], id, rec, records);
    }
  }

  /** Removing a listed id and its record takes away its count, when the
      ids are distinct. */
  lemma {:induction false} SumChunksRemove(ids: seq<string>, id: string, records: map<string, MetadataStore.DocRecord>)
    requires Distinct(ids)
    requires id in records
    ensures SumChunks(MetadataStore.Remove(ids, id), records - {id})
            == SumChunks(ids, records) - (if id in ids then records[id].numChunks else 0)
  {
    if ids != [] {
      MetadataStore.DistinctTail(ids);
      SumChunksRemove(ids[1..], id, records);
      if ids[0] == id {
        MetadataStore.RemoveAbsent(ids[1..], id);
        SumChunksMinus(ids[1..], id, records);
      }
    }
  }

  /** Dropping the record of an id that is not listed changes no sum. */
  lemma {:induction false} SumChunksMinus(ids: seq<string>, id: string, records: map<string, MetadataStore.DocRecord>)
    requires id !in ids
    ensures SumChunks(ids, records - {id}) == SumChunks(ids, records)
  {
    if ids != [] {
      assert id !in ids[1..];
      SumChunksMinus(ids[1..], id, records);
    }
  }

  /** With no negative count, the sum is not negative and bounds the count
      of every listed document. */
  lemma {:induction false} SumChunksBounds(ids: seq<string>, records: map<string, MetadataStore.DocRecord>)
    requires forall id :: id in records ==> records[id].numChunks >= 0
    ensures SumChunks(ids, records) >= 0
    ensures forall i :: 0 <= i < |ids| && ids[i] in records ==> records[ids[i]].numChunks <= SumChunks(ids, records)
  {
    if ids != [] {
      SumChunksBounds(ids[1..], records);
      forall i | 1 <= i < |ids| && ids[i] in records
        ensures records[ids[i]].numChunks <= SumChunks(ids, records)
      {
        assert ids[1..][i - 1] == ids[i];
      }
    }
  }

  /** The globals `vector_store`, `bm25_retriever`, `metadata_store` and
      `hybrid_retriever` after startup. `deleted` counts the chunks whose
      catalog records were deleted: the stores keep them. */
  class RagService {
    const vectorStore: FaissStore.FaissStore
    const bm25: Bm25.Bm25Retriever
    const catalog: MetadataStore.MetadataStore
    const hybrid: Hybrid.HybridRetriever
    ghost var deleted: nat

    /** The stores the endpoints keep in step: the two indexes hold the same
        chunks in the same order, one vector and one metadata entry per
        chunk; every catalog record names a range of stored chunks; and the
        catalog's chunk counts plus the deleted ones account for every
        stored chunk. */
    ghost predicate Valid()
      reads this, vectorStore, bm25, catalog, hybrid
    {
      && vectorStore.Valid() && vectorStore.Aligned() && bm25.Valid() && catalog.Valid()
      && hybrid.vectorStore == vectorStore && hybrid.bm25 == bm25
      && bm25.textChunks == vectorStore.texts
      && (forall id :: id in catalog.records ==> InRange(catalog.records[id], |vectorStore.texts|))
      && SumChunks(catalog.ids, catalog.records) + deleted == |vectorStore.texts|
    }

    /** Import time and `load_faiss_index()`: the catalog reads its file,
        the BM25 retriever starts empty, the vector store is created with
        dimension 384 and, when the index file exists, loaded from
        `indexFile` and `dataFile` (None for a missing or unreadable file);
        a failed load is swallowed. The hybrid retriever is built over both
        stores with alpha 0.5. A fresh start satisfies `Valid`. A full
        reload of a non-empty store does not, because the BM25 retriever
        does not see its chunks; and when the index reads but the pickled
        lists do not, the loaded vectors sit beside empty text and metadata
        lists, so the vector store is not even aligned. */
    constructor (indexFile: Option<FaissStore.FlatIndex>, dataFile: Option<(seq<string>, seq<Meta>)>,
                 catalogFile: MetadataStore.FileState)
      requires indexFile.Some? ==> FaissStore.WellFormed(indexFile.value)
      requires catalogFile.Parsed? ==> MetadataStore.Consistent(catalogFile.ids, catalogFile.records)
      ensures fresh(vectorStore) && fresh(bm25) && fresh(catalog) && fresh(hybrid)
      ensures vectorStore.dimension == Dimension
      ensures vectorStore.index == if indexFile.Some? then indexFile.value else FaissStore.FlatIndex(Dimension, [])
      ensures indexFile.Some? && dataFile.Some? ==>
                vectorStore.texts == dataFile.value.0 && vectorStore.metadata == dataFile.value.1
      ensures indexFile.None? || dataFile.None? ==> vectorStore.texts == [] && vectorStore.metadata == []
      ensures catalogFile.Parsed? ==> catalog.ids == catalogFile.ids && catalog.records == catalogFile.records
      ensures !catalogFile.Parsed? ==> catalog.ids == [] && catalog.records == map[]
      ensures bm25.textChunks == [] && hybrid.alpha == Alpha
      ensures indexFile.None? && !catalogFile.Parsed? ==> Valid()
      ensures indexFile.Some? && dataFile.Some? && dataFile.value.0 != [] ==> bm25.textChunks != vectorStore.texts
      ensures indexFile.Some? && dataFile.None? && indexFile.value.rows != [] ==> !vectorStore.Aligned()
    {
      catalog := new MetadataStore.MetadataStore(catalogFile);
      var lexical := new Bm25.Bm25Retriever(Some([]));
      bm25 := lexical;
      var store := new FaissStore.FaissStore(Dimension);
      if indexFile.Some? {
        var _ := store.Load(indexFile, dataFile);
      }
      vectorStore := store;
      hybrid := new Hybrid.HybridRetriever(store, lexical, Alpha);
      deleted := 0;
    }

    /** `upload_file(file)` for a file whose loader text is `rawText`, with
        the fresh id `docId` and the time `timestamp`. The text is cleaned
        and cut into windows of 400 characters overlapping by 100 and each
        chunk is embedded. When the vector index refuses the embeddings the
        endpoint raises before touching anything. Otherwise the chunks are
        appended to both indexes, each with its `source`/`chunk_index`
        metadata, and the catalog records them under `docId` with the range
        they now occupy. */
    method UploadFile(filename: string, rawText: string, embed: string -> seq<real>, docId: string, timestamp: string)
      returns (r: Result<string>)
      requires Valid() && docId !in catalog.records
      modifies this, vectorStore, bm25, catalog
      ensures Valid()
      ensures var chunks := Preprocessor.Chunks(Preprocessor.CleanText(rawText), ChunkSize, Overlap);
              var before := |old(vectorStore.texts)|;
              && (r.Err? <==> !FaissStore.CanAdd(old(vectorStore.index), EmbedAll(chunks, embed)))
              && (r.Err? ==> r.error == ShapeError
                             && vectorStore.index == old(vectorStore.index)
                             && vectorStore.texts == old(vectorStore.texts)
                             && vectorStore.metadata == old(vectorStore.metadata)
                             && bm25.textChunks == old(bm25.textChunks)
                             && catalog.ids == old(catalog.ids) && catalog.records == old(catalog.records))
              && (r.Ok? ==> r.value == docId
                            && vectorStore.index.rows == old(vectorStore.index.rows) + EmbedAll(chunks, embed)
                            && vectorStore.texts == old(vectorStore.texts) + chunks
                            && vectorStore.metadata == old(vectorStore.metadata) + ChunkMetadata(filename, |chunks|)
                            && bm25.textChunks == vectorStore.texts
                            && catalog.ids == old(catalog.ids) + [docId]
                            && catalog.records == old(catalog.records)[docId := MetadataStore.DocRecord(
                                 filename, |chunks|, UploadPath(filename), before, before + |chunks|, timestamp)]
                            && vectorStore.texts[before..before + |chunks|] == chunks)
      ensures deleted == old(deleted)
    {
      var chunks := Preprocessor.ChunkText(rawText, ChunkSize, Overlap);
      r := StoreChunks(filename, UploadPath(filename), chunks, embed, docId, timestamp);
    }

    /** The part of `upload_file` after chunking: embedding, the appends
        under the lock and the catalog write, for the chunks `chunks` of a
        file saved at `path`. */
    method StoreChunks(filename: string, path: string, chunks: seq<string>, embed: string -> seq<real>, docId: string, timestamp: string)
      returns (r: Result<string>)
      requires Valid() && docId !in catalog.records
      modifies this, vectorStore, bm25, catalog
      ensures Valid()
      ensures var before := |old(vectorStore.texts)|;
              && (r.Err? <==> !FaissStore.CanAdd(old(vectorStore.index), EmbedAll(chunks, embed)))
              && (r.Err? ==> r.error == ShapeError
                             && vectorStore.index == old(vectorStore.index)
                             && vectorStore.texts == old(vectorStore.texts)
                             && vectorStore.metadata == old(vectorStore.metadata)
                             && bm25.textChunks == old(bm25.textChunks)
                             && catalog.ids == old(catalog.ids) && catalog.records == old(catalog.records))
              && (r.Ok? ==> r.value == docId
                            && vectorStore.index.rows == old(vectorStore.index.rows) + EmbedAll(chunks, embed)
                            && vectorStore.texts == old(vectorStore.texts) + chunks
                            && vectorStore.metadata == old(vectorStore.metadata) + ChunkMetadata(filename, |chunks|)
                            && bm25.textChunks == vectorStore.texts
                            && catalog.ids == old(catalog.ids) + [docId]
                            && catalog.records == old(catalog.records)[docId := MetadataStore.DocRecord(
                                 filename, |chunks|, path, before, before + |chunks|, timestamp)]
                            && vectorStore.texts[before..before + |chunks|] == chunks)
      ensures deleted == old(deleted)
    {
      var embeddings := EmbedAll(chunks, embed);
      var startIdx := |vectorStore.texts|;
      ghost var texts0, ids0, records0 := vectorStore.texts, catalog.ids, catalog.records;
      var ok := AppendChunks(chunks, embeddings, ChunkMetadata(filename, |chunks|));
      assert catalog.ids == ids0 && catalog.records == records0;
      if !ok {
        return Err(ShapeError);
      }
      var endIdx := |vectorStore.texts|;
      assert vectorStore.texts == texts0 + chunks && endIdx == startIdx + |chunks|;
      assert vectorStore.texts[startIdx..endIdx] == chunks;
      r := RecordDocument(docId, filename, |chunks|, path, startIdx, endIdx, timestamp);
      assert catalog.records == records0[docId := MetadataStore.DocRecord(
        filename, |chunks|, path, startIdx, endIdx, timestamp)];
    }

    /** The catalog write that ends `upload_file`: the chunks at
        `[startIdx, endIdx)` are recorded under `docId`, which brings the
        catalog's counts back in line with the stored chunks. */
    method RecordDocument(docId: string, filename: string, numChunks: int, path: string,
                          startIdx: int, endIdx: int, timestamp: string) returns (r: Result<string>)
      requires catalog.Valid() && docId !in catalog.records
      requires 0 <= startIdx <= endIdx == |vectorStore.texts| && numChunks == endIdx - startIdx
      requires forall id :: id in catalog.records ==> InRange(catalog.records[id], startIdx)
      requires SumChunks(catalog.ids, catalog.records) + deleted == startIdx
      modifies catalog
      ensures r == Ok(docId)
      ensures catalog.ids == old(catalog.ids) + [docId]
      ensures catalog.records
              == old(catalog.records)[docId := MetadataStore.DocRecord(filename, numChunks, path, startIdx, endIdx, timestamp)]
      ensures catalog.Valid()
      ensures forall id :: id in catalog.records ==> InRange(catalog.records[id], endIdx)
      ensures SumChunks(catalog.ids, catalog.records) + deleted == endIdx
    {
      var rec := MetadataStore.DocRecord(filename, numChunks, path, startIdx, endIdx, timestamp);
      assert docId !in catalog.ids;
      SumChunksFrame(catalog.ids, docId, rec, catalog.records);
      SumChunksAppend(catalog.ids, docId, catalog.records[docId := rec]);
      var id := catalog.AddDocument(docId, filename, numChunks, path, startIdx, endIdx, timestamp);
      forall other | other in catalog.records ensures InRange(catalog.records[other], endIdx) {
        if other != docId {
          assert other in old(catalog.records);
        }
      }
      r := Ok(id);
    }

    /** The block under `store_lock` in `upload_file`: the vector store
        takes the chunks first, and the BM25 retriever only when the vector
        store accepted them, so the two indexes stay in step either way. */
    method AppendChunks(chunks: seq<string>, embeddings: seq<seq<real>>, metadata: seq<Meta>) returns (ok: bool)
      requires vectorStore.Valid() && vectorStore.Aligned() && bm25.Valid() && bm25.textChunks == vectorStore.texts
      requires |embeddings| == |chunks| == |metadata|
      modifies vectorStore, bm25
      ensures ok == FaissStore.CanAdd(old(vectorStore.index), embeddings)
      ensures !ok ==> vectorStore.index == old(vectorStore.index) && vectorStore.texts == old(vectorStore.texts)
                      && vectorStore.metadata == old(vectorStore.metadata) && bm25.textChunks == old(bm25.textChunks)
      ensures ok ==> vectorStore.index.rows == old(vectorStore.index.rows) + embeddings
                     && vectorStore.texts == old(vectorStore.texts) + chunks
                     && vectorStore.metadata == old(vectorStore.metadata) + metadata
      ensures vectorStore.Valid() && vectorStore.Aligned() && bm25.Valid() && bm25.textChunks == vectorStore.texts
    {
      ok := vectorStore.Add(chunks, embeddings, metadata);
      if ok {
        bm25.AddDocuments(chunks);
      }
    }

    /** `delete_document(doc_id)`: only the catalog record goes; its chunks
        stay in both indexes and are counted as deleted. */
    method DeleteDocument(docId: string)
      requires Valid()
      modifies this, catalog
      ensures Valid()
      ensures catalog.records == old(catalog.records) - {docId}
      ensures catalog.ids == MetadataStore.Remove(old(catalog.ids), docId)
      ensures vectorStore.texts == old(vectorStore.texts) && bm25.textChunks == old(bm25.textChunks)
      ensures deleted == old(deleted) + (if docId in old(catalog.records) then old(catalog.records[docId].numChunks) else 0)
    {
      if docId in catalog.records {
        var n := catalog.records[docId].numChunks;
        SumChunksRemove(catalog.ids, docId, catalog.records);
        catalog.DeleteDocument(docId);
        deleted := deleted + n;
      } else {
        MetadataStore.RemoveAbsent(catalog.ids, docId);
        catalog.DeleteDocument(docId);
        assert catalog.records == old(catalog.records) && catalog.ids == old(catalog.ids);
      }
    }

    /** `query_rag(query, mode)` up to the retrieved chunks (the prompt and
        the language-model call are left out). An empty vector store
        answers with an error before anything else; the mode picks the
        vector search, the BM25 ranking or the hybrid fusion, each asked
        for 3 chunks, and any other mode is an error. Every chunk returned
        is a stored chunk. */
    method QueryRag(query: string, mode: string, embed: string -> seq<real>, score: Bm25.Scorer)
      returns (r: Result<seq<string>>)
      requires Valid()
      ensures vectorStore.texts == [] ==> r == Err(NoDocuments)
      ensures vectorStore.texts != [] ==>
                && (mode == "vector" ==>
                      var s := vectorStore.Search(embed(query), QueryTopK);
                      r == if s.Ok? then Ok(s.value.0) else Err(s.error))
                && (mode == "bm25" ==> r == Ok(bm25.Retrieve(query, QueryTopK, score).0))
                && (mode == "hybrid" ==>
                      var s := vectorStore.Search(embed(query), QueryTopK);
                      var lexical := bm25.Retrieve(query, QueryTopK, score);
                      var vec := if s.Ok? && s.value.0 != [] then [s.value.0[0]] else [];
                      && (s.Err? ==> r == Err(s.error))
                      && (s.Ok? ==> r.Ok? && Hybrid.FusedTopK(vec, lexical.0, lexical.1, hybrid.alpha, QueryTopK, r.value)))
                && (mode !in {"vector", "bm25", "hybrid"} ==> r == Err(InvalidMode))
      ensures r.Ok? ==> |r.value| <= QueryTopK && forall p :: 0 <= p < |r.value| ==> r.value[p] in vectorStore.texts
      ensures vectorStore.texts != [] && mode == "vector" && |embed(query)| == vectorStore.index.d ==>
                r.Ok? && |r.value| == QueryTopK
    {
      if vectorStore.texts == [] {
        return Err(NoDocuments);
      }
      var queryEmb := embed(query);
      if mode == "vector" {
        var s := vectorStore.Search(queryEmb, QueryTopK);
        if s.Err? {
          return Err(s.error);
        }
        StoredHits(queryEmb);
        r := Ok(s.value.0);
      } else if mode == "bm25" {
        var hits := bm25.Retrieve(query, QueryTopK, score);
        LexicalHitsStored(query, score);
        r := Ok(hits.0);
      } else if mode == "hybrid" {
        var s := vectorStore.Search(queryEmb, QueryTopK);
        r := hybrid.Retrieve(queryEmb, query, QueryTopK, score);
        LexicalHitsStored(query, score);
        if s.Ok? {
          StoredHits(queryEmb);
          var hits := s.value.0;
          assert hits != [] ==> hits[0] in vectorStore.texts;
        }
      } else {
        r := Err(InvalidMode);
      }
    }

    /** The catalog never claims more chunks than the stores hold: the
        counts of its documents sum to the stored chunks that were not
        deleted, so to all of them when nothing was deleted, and each
        document's count is within that sum. */
    lemma CatalogWithinStore()
      requires Valid()
      ensures 0 <= SumChunks(catalog.ids, catalog.records) <= |vectorStore.texts|
      ensures deleted == 0 ==> SumChunks(catalog.ids, catalog.records) == |vectorStore.texts|
      ensures forall id :: id in catalog.records ==>
                catalog.records[id].numChunks <= |vectorStore.texts| - deleted
    {
      SumChunksBounds(catalog.ids, catalog.records);
      forall id | id in catalog.records
        ensures catalog.records[id].numChunks <= |vectorStore.texts| - deleted
      {
        var i :| 0 <= i < |catalog.ids| && catalog.ids[i] == id;
      }
    }

    /** The BM25 ranking returns at most `topK` stored chunks. */
    lemma LexicalHitsStored(query: string, score: Bm25.Scorer)
      requires Valid()
      ensures var hits := bm25.Retrieve(query, QueryTopK, score).0;
              |hits| <= QueryTopK && forall p :: 0 <= p < |hits| ==> hits[p] in vectorStore.texts
    {
      var hits := bm25.Retrieve(query, QueryTopK, score).0;
      if bm25.bm25.Some? {
        var idx := Ranking.TopIndices(bm25.Scores(query, score), QueryTopK);
        forall p | 0 <= p < |hits| ensures hits[p] in vectorStore.texts {
          assert hits[p] == bm25.textChunks[idx[p]];
        }
      }
    }

    /** On a non-empty, aligned store a query of the index's dimension is
        answered, and every text it returns is a stored one. */
    lemma StoredHits(queryEmb: seq<real>)
      requires Valid() && vectorStore.texts != []
      ensures var s := vectorStore.Search(queryEmb, QueryTopK);
              && (|queryEmb| == vectorStore.index.d ==> s.Ok?)
              && (s.Ok? ==> forall p :: 0 <= p < |s.value.0| ==> s.value.0[p] in vectorStore.texts)
    {
      var s := vectorStore.Search(queryEmb, QueryTopK);
      if |queryEmb| == vectorStore.index.d {
        var labels := FaissStore.Labels(vectorStore.index, queryEmb, QueryTopK);
        var near := Ranking.TopIndices(FaissStore.Closeness(vectorStore.index, queryEmb), QueryTopK);
        forall p | 0 <= p < QueryTopK
          ensures PyGet(vectorStore.texts, labels[p]).Some? && PyGet(vectorStore.metadata, labels[p]).Some?
        {
          if p < |near| {
            assert labels[p] == near[p];
          } else {
            assert labels[p] == -1;
          }
        }
      }
      if s.Ok? {
        forall p | 0 <= p < |s.value.0| ensures s.value.0[p] in vectorStore.texts {
          var lab := FaissStore.Labels(vectorStore.index, queryEmb, QueryTopK)[p];
          assert Some(s.value.0[p]) == PyGet(vectorStore.texts, lab);
        }
      }
    }
  }

  /** A fresh service that takes one upload of non-blank text, embedded at
      the index's dimension, stores it and answers a BM25 query with as
      many chunks as were stored, up to 3, all of them stored chunks. */
  method FreshUploadThenQuery(filename: string, rawText: string, embed: string -> seq<real>,
                              docId: string, timestamp: string, query: string, score: Bm25.Scorer)
    returns (uploaded: Result<string>, answer: Result<seq<string>>)
    requires Preprocessor.CleanText(rawText) != []
    requires forall t :: |embed(t)| == Dimension
    ensures uploaded == Ok(docId)
    ensures answer.Ok? && 0 < |answer.value| <= QueryTopK
  {
    var service := new RagService(None, None, MetadataStore.Missing);
    var chunks := Preprocessor.Chunks(Preprocessor.CleanText(rawText), ChunkSize, Overlap);
    Preprocessor.ChunkCount(Preprocessor.CleanText(rawText), ChunkSize, Overlap);
    assert FaissStore.CanAdd(service.vectorStore.index, EmbedAll(chunks, embed));
    uploaded := service.UploadFile(filename, rawText, embed, docId, timestamp);
    assert service.bm25.textChunks == chunks != [];
    answer := service.QueryRag(query, "bm25", embed, score);
  }
}
