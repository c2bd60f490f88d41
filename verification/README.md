# A verified model of a retrieval-augmented question-answering service

The service ingests uploaded documents and answers questions over them. Its
core, modelled here in Dafny, has these parts:

- **Preprocessing.** A text preprocessor collapses whitespace and cuts the
  text into overlapping fixed-size character windows.
- **Two indexes kept side by side.**
  - A BM25 lexical retriever over the chunks, tokenized as runs of word
    characters.
  - An exact L2 vector store (FAISS `IndexFlatL2`), which keeps each
    chunk's text and metadata in parallel lists.
- **Document catalog.** It records, for every uploaded file, the range of
  chunk positions the file occupies in both indexes.
- **Hybrid retriever.** It fuses vector ranks and normalised BM25 scores.
- **Rerankers.**
  - A cross-encoder reranker (the predictions are inputs).
  - A language-model reranker (the parsed reply is an input).
- **Positional metadata filter.**
- **Per-session chat memory**, a bounded deque for each session.
- **Service endpoints.**
  - Upload appends to both indexes and then writes the catalog.
  - Delete touches the catalog only.
  - Query dispatches on the retrieval mode.

Every sort in the service is Python's stable `sorted(..., reverse=True)`. The
`Ranking` module models it once, as the unique listing of positions in the
order "higher score first, earlier position on ties". The other modules reuse
it: BM25 top-k, FAISS nearest neighbours (by negated squared distance),
hybrid fusion and both rerankers. Python's indexing and slicing are written
out (`PyGet`, `PySlice`). Negative indices count from the end, which is how a
FAISS label of -1 reads the last stored text.

The code is imperative wherever the source mutates state:

- The stores and the memory manager are classes with `modifies` clauses.
- The chunking loop, the hybrid scoring loop, the filter loop and the
  reranker's in-place score writes are methods with loop invariants.
- Each such method is proved against a function that specifies it.

The service object `Api.RagService` holds the invariant that ties the stores
together:

- both indexes hold the same chunks in the same order;
- there is one vector and one metadata entry per chunk;
- every catalog record names a range of stored chunks, of exactly its chunk
  count;
- the catalog's counts plus the chunks of deleted documents add up to the
  number of stored chunks.

Upload, delete and query each preserve this invariant.

Three behaviours of the code that are easy to miss:

- **Number of chunks.** A text of cleaned length L gives `ceil(L / (chunk_size - overlap))`
  chunks. The loop keeps going while `start < len(text)`, so the tail windows
  that repeat overlap are produced too. This is `Preprocessor.ChunkCount`.
- **Search on an empty index.** FAISS pads the label row with -1, and
  `self.texts[-1]` on an empty list raises `IndexError`. The search does not
  return an empty result. This is `FaissStore.SearchPadding`.
- **Hybrid retrieval reads only one vector hit.** `_extract_texts` receives
  the pair `(texts, metadata)` that `FaissStore.search` returns, so its two
  items are lists. For each list it takes the first element only if that
  element is a string. The metadata list's first element is a dictionary, so
  nothing comes from it. The vector side therefore contributes at most
  `texts[0]`. The model keeps this behaviour (`Hybrid.ExtractedSearchPair`,
  `Hybrid.HybridRetriever.Retrieve`).

## Model

| member | source | states |
|---|---|---|
| Common.Get | filters/metadata_filter.py:17 | `meta.get(k)`: the stored value for a present key, None for a missing one |
| Common.PySlice | data_ingestion/preprocessor.py:23 | Python slicing: the in-range slice for in-range bounds, the suffix when the end passes the length, empty past the end, never longer than the list |
| Common.PyGet | vector_Store/faiss_Store.py:25 | Python indexing: `s[i]` for `0 <= i < len`, `s[len + i]` for negative i down to `-len`, and failure exactly outside that range |
| Common.PyGetAll | vector_Store/faiss_Store.py:25 | the list comprehension over labels succeeds iff every lookup succeeds, and then returns one element per label, each the lookup of its label |
| Ranking.Insert | retrievers/bm25_retrievers.py:30 | inserting a position into a ranked listing keeps it ranked, adds one element and adds exactly that position |
| Ranking.SortIndices | rerank/llm_reranker.py:38 | the stable descending order of the first n positions lists each of them exactly once, in ranked order |
| Ranking.TopIndices | retrievers/bm25_retrievers.py:30 | `sorted(range(n), key, reverse=True)[:k]` has `min(k, n)` ranked positions, and every position left out comes after every position kept |
| Ranking.RankedScores | retrievers/bm25_retrievers.py:30 | along a ranked listing, scores do not increase, ties keep position order, and positions are distinct |
| Ranking.RankedScoresNonIncreasing | retrievers/bm25_retrievers.py:30 | the scores read along a ranked listing are non-increasing |
| Ranking.TopIndicesFacts | retrievers/bm25_retrievers.py:30 | the top-k positions are distinct, their scores are non-increasing with ties in input order, and no position left out scores higher than one kept |
| Ranking.Gather | retrievers/bm25_retrievers.py:31 | `[s[i] for i in idx]` has one element per index, each `s[idx[p]]` |
| Ranking.GatherPicked | rerank/llm_reranker.py:38 | the multiset of `[s[i] for i in idx]` is the multiset of the elements picked at `idx` |
| Ranking.GatherInsert | rerank/llm_reranker.py:38 | inserting a position into the listing adds exactly that position's element to the picked multiset |
| Ranking.SortPicksPrefix | rerank/llm_reranker.py:38 | the stable order of the first n positions picks exactly the first n elements |
| Ranking.GatherSortIsPermutation | rerank/llm_reranker.py:38 | gathering along the stable sort of the first n positions is a permutation of the first n elements |
| Ranking.RankedIsUnique | rerank/llm_reranker.py:38 | two ranked listings of the same positions are equal: the stable order is unique |
| TextRuns.RunLength | retrievers/bm25_retrievers.py:18 | a run is the longest prefix of characters in the class |
| TextRuns.Runs | retrievers/bm25_retrievers.py:18 | the maximal runs of a character class are all non-empty |
| TextRuns.RunsInClass | retrievers/bm25_retrievers.py:18 | every character of every run is in the class |
| TextRuns.RunsSplit | retrievers/bm25_retrievers.py:18 | a character outside the class separates the runs of the two sides |
| TextRuns.RunsOfRun | retrievers/bm25_retrievers.py:18 | a non-empty string of class characters is a single run |
| TextRuns.FlattenRuns | retrievers/bm25_retrievers.py:18 | the runs concatenated are exactly the class characters of the string, in order |
| Preprocessor.Collapse | data_ingestion/preprocessor.py:12 | `re.sub(r'\s+', ' ', text)`: only plain spaces remain, never two in a row, emptiness is kept, and the first character keeps its class |
| Preprocessor.ReplaceNewlines | data_ingestion/preprocessor.py:13 | `replace('\n', ' ')` keeps the length, turns every newline into a space and keeps every other character |
| Preprocessor.ReplaceNewlinesKeepsPlain | data_ingestion/preprocessor.py:12-13 | after the collapse there is no newline left, so the replace changes nothing |
| Preprocessor.StripLeft | data_ingestion/preprocessor.py:13 | the result is a suffix of the input and starts with a non-space |
| Preprocessor.StripRight | data_ingestion/preprocessor.py:13 | the result is a prefix of the input and ends with a non-space |
| Preprocessor.Strip | data_ingestion/preprocessor.py:13 | `str.strip()`: no whitespace at either end, a slice of the input, and everything dropped before or after it is whitespace |
| Preprocessor.StripSlice | data_ingestion/preprocessor.py:13 | the two halves of the strip together keep a slice and drop only whitespace around it |
| Preprocessor.StripKeepsSpacing | data_ingestion/preprocessor.py:12-13 | stripping a string whose whitespace is single plain spaces leaves a clean string |
| Preprocessor.RunsOfStrip | data_ingestion/preprocessor.py:13 | stripping keeps the words (maximal non-space runs) |
| Preprocessor.CleanText | data_ingestion/preprocessor.py:10-14 | `clean_text`: only single plain spaces and none at either end, and the same sequence of words as the input |
| Preprocessor.CleanTextIsJoinedWords | data_ingestion/preprocessor.py:10-14 | the cleaned text is the input's words joined by single spaces |
| Preprocessor.CleanTextIdempotent | data_ingestion/preprocessor.py:10-14 | cleaning a cleaned text changes nothing |
| Preprocessor.IsSpace | data_ingestion/preprocessor.py:12 | `\s` as Python's `str` patterns read it (the Unicode whitespace set); no ASCII letter, digit or underscore is whitespace |
| Preprocessor.Window | data_ingestion/preprocessor.py:22-23 | a window starting inside the text is `text[start:min(start + size, len)]`, of 1 to `chunk_size` characters |
| Preprocessor.ChunksFrom | data_ingestion/preprocessor.py:21-25 | the windows from a start are empty exactly when the start is at or past the end |
| Preprocessor.Chunks | data_ingestion/preprocessor.py:19-26 | a cleaned text has no chunks exactly when it is empty |
| Preprocessor.ChunkText | data_ingestion/preprocessor.py:16-26 | `chunk_text` returns the window sequence of the cleaned text |
| Preprocessor.SlideWindows | data_ingestion/preprocessor.py:19-26 | the while loop appends windows at starts 0, step, 2·step, … while `start < len`; its result is exactly the window sequence |
| Preprocessor.CeilDivIsWindowCount | data_ingestion/preprocessor.py:21-25 | n is the number of starts below L iff `n·step >= L` and `(n-1)·step < L` |
| Preprocessor.ChunksFromCount | data_ingestion/preprocessor.py:21-25 | the windows from a start number the steps that fit before the end |
| Preprocessor.ChunkCount | data_ingestion/preprocessor.py:16-26 | there are `ceil(L / (chunk_size - overlap))` chunks, none exactly when the cleaned text is empty |
| Preprocessor.ChunksFromAt | data_ingestion/preprocessor.py:21-25 | the i-th window from a start begins at `start + i·step` inside the text |
| Preprocessor.ChunkShape | data_ingestion/preprocessor.py:21-25 | chunk i is `cleaned[i·step : min(i·step + size, L)]` and holds 1 to `chunk_size` characters |
| Preprocessor.TailsFrom | data_ingestion/preprocessor.py:21-25 | dropping the first `overlap` characters of each later window leaves a gap-free cover of the rest of the text |
| Preprocessor.ChunksReassemble | data_ingestion/preprocessor.py:16-26 | the first chunk, followed by every later chunk without its first `overlap` characters, rebuilds the cleaned text exactly |
| Bm25.LowerChar | retrievers/bm25_retrievers.py:18 | `lower()` on one character: never an upper-case ASCII letter, anything else kept, and word characters stay word characters both ways |
| Bm25.IsWordChar | retrievers/bm25_retrievers.py:18 | `\w` over ASCII: every word character is ASCII |
| Bm25.Lower | retrievers/bm25_retrievers.py:18 | `text.lower()`: same length, each character lower-cased |
| Bm25.Tokenize | retrievers/bm25_retrievers.py:16-18 | `re.findall(r'\w+', text.lower())`: non-empty tokens made of word characters only |
| Bm25.TokenizeAll | retrievers/bm25_retrievers.py:9 | one token list per chunk, each the tokenization of that chunk |
| Bm25.LowerSplit | retrievers/bm25_retrievers.py:18 | lower-casing distributes over concatenation |
| Bm25.TokenizeSplit | retrievers/bm25_retrievers.py:18 | a non-word character splits the tokens into those of either side |
| Bm25.TokenizeWord | retrievers/bm25_retrievers.py:18 | a run of word characters is one token, lower-cased |
| Bm25.TokenizeKeepsWordChars | retrievers/bm25_retrievers.py:18 | the tokens concatenated are exactly the word characters of the lower-cased text, in order |
| Bm25.TokenizeAllAppend | retrievers/bm25_retrievers.py:20-23 | re-tokenizing after an extend equals the old token lists followed by the new ones |
| Bm25.Bm25Retriever.constructor | retrievers/bm25_retrievers.py:7-14 | `text_chunks or []`, a tokenized copy, and an index only when there are chunks |
| Bm25.Bm25Retriever.AddDocuments | retrievers/bm25_retrievers.py:20-23 | the chunks are extended in place, the copy is rebuilt over all of them, and an index is always built |
| Bm25.Bm25Retriever.Scores | retrievers/bm25_retrievers.py:28-29 | one Okapi score per stored chunk |
| Bm25.Bm25Retriever.Retrieve | retrievers/bm25_retrievers.py:25-31 | no index gives `([], [])`; otherwise the texts and scores at the top-k positions, `min(k, n)` of each, with non-increasing scores |
| Bm25.EmptyRetrieverRetrievesNothing | retrievers/bm25_retrievers.py:7-27 | a retriever built from None or `[]` retrieves `([], [])` |
| Bm25.RetrieveIsTopK | retrievers/bm25_retrievers.py:28-31 | the retrieved positions are distinct, no chunk left out outscores one returned, and ties appear in corpus order |
| FaissStore.SquaredL2 | vector_Store/faiss_Store.py:11 | the squared L2 distance is non-negative and zero between equal vectors |
| FaissStore.CanAdd | vector_Store/faiss_Store.py:16-17 | the shape test of `index.add`: an accepted array keeps every stored vector at the index dimension |
| FaissStore.Closeness | vector_Store/faiss_Store.py:24 | one negated distance per stored vector |
| FaissStore.Labels | vector_Store/faiss_Store.py:24 | the label row has exactly k entries |
| FaissStore.FaissStore.constructor | vector_Store/faiss_Store.py:9-13 | an empty index of the given dimension and empty parallel lists |
| FaissStore.FaissStore.Add | vector_Store/faiss_Store.py:15-19 | the add succeeds iff the array is non-empty with rows of the index dimension; then rows, texts and metadata are extended by exactly the inputs; otherwise nothing changes |
| FaissStore.FaissStore.Search | vector_Store/faiss_Store.py:22-25 | a query of the wrong length is refused; otherwise each slot holds the text and metadata at its label under Python indexing, and a lookup out of range is an IndexError |
| FaissStore.FaissStore.Save | vector_Store/faiss_Store.py:27-44 | the snapshot holds the index, the texts and the metadata |
| FaissStore.FaissStore.Load | vector_Store/faiss_Store.py:46-51 | succeeds iff both files read; an unreadable index file changes nothing; an unreadable pickle after a readable index replaces the index only; on success the index and both lists are the saved ones; the dimension field is never touched |
| FaissStore.SearchNearest | vector_Store/faiss_Store.py:22-25 | with k at most the stored count, the search succeeds nearest first, and every vector left out is at least as far as every one returned |
| FaissStore.SearchPadding | vector_Store/faiss_Store.py:22-25 | for k above the stored count, the extra slots repeat the last text, and with no texts the search raises IndexError |
| FaissStore.SaveAddLoad | vector_Store/faiss_Store.py:15-51 | save, add, then load restores the store exactly |
| MetadataStore.Remove | metadata/metadata_Store.py:54-55 | the ids without the deleted one, in order, still distinct |
| MetadataStore.MetadataStore.constructor | metadata/metadata_Store.py:8-27 | a parsed file is kept; a missing or corrupt file gives an empty catalog |
| MetadataStore.MetadataStore.AddDocument | metadata/metadata_Store.py:34-46 | the fresh id maps to the given record, is listed last and is returned; every other entry is unchanged |
| MetadataStore.MetadataStore.DeleteDocument | metadata/metadata_Store.py:52-56 | the id and its record are removed if present, and nothing else changes |
| MetadataStore.MetadataStore.GetDocument | metadata/metadata_Store.py:58-60 | the stored record, or None (the empty dict) for an unknown id |
| MetadataStore.MetadataStore.ListDocuments | metadata/metadata_Store.py:48-50 | one listing per id, in insertion order, each with its own record |
| MetadataStore.RemoveAbsent | metadata/metadata_Store.py:54 | deleting an absent id changes nothing |
| MetadataStore.RemoveIdempotent | metadata/metadata_Store.py:52-56 | deleting twice equals deleting once |
| MetadataStore.RemoveKeepsOrder | metadata/metadata_Store.py:55 | the remaining ids keep their relative order |
| MetadataStore.ListDocumentsExactlyOnce | metadata/metadata_Store.py:48-50 | every stored document appears in the listing |
| MetadataStore.AddThenGet | metadata/metadata_Store.py:34-60 | a document reads back as added, and another id reads as before |
| Hybrid.FirstTextField | retrievers/hybrid_retriever.py:32-35 | a dict yields a text iff one of the four keys holds a string, and then it is the value under such a key |
| Hybrid.PickText | retrievers/hybrid_retriever.py:29-44 | a string yields itself; a list yields its first element exactly when that is a string; a dict yields a string stored under one of the four keys; anything else yields nothing |
| Hybrid.Extracted | retrievers/hybrid_retriever.py:23-47 | at most one text per item |
| Hybrid.ExtractTexts | retrievers/hybrid_retriever.py:23-47 | the loop collects exactly the texts the items yield, in order |
| Hybrid.ExtractedAppend | retrievers/hybrid_retriever.py:29-44 | extraction distributes over concatenation of the item lists |
| Hybrid.ExtractedStrings | retrievers/hybrid_retriever.py:43-44 | a list of strings is extracted unchanged |
| Hybrid.ExtractedSearchPair | retrievers/hybrid_retriever.py:38-55 | from the pair `(texts, metadata)` the extraction yields `[texts[0]]`, or `[]` when there are no texts |
| Hybrid.Linspace | retrievers/hybrid_retriever.py:56 | `linspace(1, 0, n)` has n points |
| Hybrid.LinspaceShape | retrievers/hybrid_retriever.py:56 | `linspace(1, 0, n)` has n points from 1 down to 0 in equal steps of `1/(n-1)`, and `[1.0]` for n = 1 |
| Hybrid.MaxOf | retrievers/hybrid_retriever.py:64-65 | the maximum is an element and bounds every element |
| Hybrid.Normalize | retrievers/hybrid_retriever.py:63-67 | the normalised scores are as many as the raw ones |
| Hybrid.NormalizeShape | retrievers/hybrid_retriever.py:63-67 | with a positive maximum, the scores divided by it are at most 1, the maximum becomes 1 and order is kept; otherwise all become zero |
| Hybrid.NormalizeInUnit | retrievers/hybrid_retriever.py:63-67 | non-negative scores normalise into [0, 1] |
| Hybrid.IndexOf | retrievers/hybrid_retriever.py:74-75 | `list.index` finds the first occurrence |
| Hybrid.VectorScore | retrievers/hybrid_retriever.py:74 | the vector term lies in [0, 1], is 0 for a text the vector side did not return, and 1 for its first hit |
| Hybrid.Bm25Score | retrievers/hybrid_retriever.py:75 | the BM25 term is missing exactly when the text's first position has no score |
| Hybrid.FusedScore | retrievers/hybrid_retriever.py:73-77 | the fused score is missing exactly when the BM25 lookup fails |
| Hybrid.Weighted | retrievers/hybrid_retriever.py:76 | the weighted sum is the vector term at alpha 1, the BM25 term at alpha 0, and their common value when they agree |
| Hybrid.WeightedInUnit | retrievers/hybrid_retriever.py:76 | `alpha·v + (1-alpha)·b` stays in [0, 1] for inputs in [0, 1] |
| Hybrid.VectorScoreInUnit | retrievers/hybrid_retriever.py:74 | the vector term is in [0, 1] |
| Hybrid.Bm25ScoreInUnit | retrievers/hybrid_retriever.py:75 | with non-negative raw scores, the BM25 term is in [0, 1] |
| Hybrid.FusedScoreInUnit | retrievers/hybrid_retriever.py:73-77 | every fused score is in [0, 1] |
| Hybrid.FusedScoreOfTopHit | retrievers/hybrid_retriever.py:73-77 | a text ranked first by both retrievers, with a positive top BM25 score, fuses to exactly 1 |
| Hybrid.Candidates | retrievers/hybrid_retriever.py:70 | `set(vector_results + bm25_results)` holds exactly the texts of either list, and is empty exactly when both are |
| Hybrid.ListOfSet | retrievers/hybrid_retriever.py:70 | `list(set(...))` lists every element exactly once, in an unspecified order |
| Hybrid.RankCandidates | retrievers/hybrid_retriever.py:70-81 | fails iff some candidate has no score; otherwise `min(k, n)` distinct candidates, non-increasing in score, none left out scoring higher |
| Hybrid.TopOfScored | retrievers/hybrid_retriever.py:80-81 | the first k of the stable sort are distinct, in non-increasing score order, and outscore the rest |
| Hybrid.ScorableCandidates | retrievers/hybrid_retriever.py:73-77 | some candidate lacks a fused score iff some BM25 text's first position has no score |
| Hybrid.Fuse | retrievers/hybrid_retriever.py:63-81 | the top-k candidates by fused score from either list, without repetition, non-increasing, none left out scoring higher (`FusedTopK`); IndexError exactly when scores are missing |
| Hybrid.NothingInNothingOut | retrievers/hybrid_retriever.py:70 | with no results from either retriever there are no candidates |
| Hybrid.ScorableWhenAligned | retrievers/hybrid_retriever.py:75 | BM25 texts with a score each can always be scored |
| Hybrid.HybridRetriever.constructor | retrievers/hybrid_retriever.py:6-18 | the retriever keeps the two stores and alpha it is given |
| Hybrid.HybridRetriever.Retrieve | retrievers/hybrid_retriever.py:52-81 | a failing vector search propagates its error; otherwise, fusing the first vector hit with BM25's texts and scores, the best `min(top_k, candidates)` texts by fused score, each once, non-increasing, none left out scoring higher, each a BM25 text or the first vector hit |
| LlmReranker.DocScores | rerank/llm_reranker.py:37 | the dict has exactly the ids the reply lists |
| LlmReranker.DocScoresListed | rerank/llm_reranker.py:37 | every score in the dict is one the reply lists for that id |
| LlmReranker.ScoreOf | rerank/llm_reranker.py:38 | `doc_scores.get(id, 0)`: 0 for an id the reply does not list, otherwise a score the reply lists for that id |
| LlmReranker.LlmRerank | rerank/llm_reranker.py:29-40 | an unparsable reply returns the documents unchanged; otherwise the documents in stable descending order of listed score |
| LlmReranker.LastListedWins | rerank/llm_reranker.py:37 | the last reply item listing an id decides its score |
| LlmReranker.UnlistedScoresZero | rerank/llm_reranker.py:38 | an id the reply does not list scores 0 |
| LlmReranker.LlmRerankIsPermutation | rerank/llm_reranker.py:38 | the reranked list is a permutation of the documents |
| LlmReranker.LlmRerankOrder | rerank/llm_reranker.py:38 | listed scores do not increase along the result, and ties keep the input order |
| Rerank.Zip | rerank/reranker.py:17 | `zip` pairs up to the shorter list, element by element |
| Rerank.RerankPairs | rerank/reranker.py:10-18 | `min(top_k, n)` pairs, each a document with its own score, at the stable top-k positions |
| Rerank.RerankIsTopK | rerank/reranker.py:17-18 | distinct positions, non-increasing scores, ties in input order, and nothing left out scores higher |
| Rerank.ScoreAfter | rerank/reranker.py:28-29 | after the first n writes, a dict never written keeps its entry, and a written one holds the score of its last write |
| Rerank.ScoreAfterDistinct | rerank/reranker.py:28-29 | when every dict appears once, dict i ends with score i |
| Rerank.ScoreAfterUntouched | rerank/reranker.py:28-29 | a dict outside the zipped prefix keeps its old score |
| Rerank.Keys | rerank/reranker.py:31 | the sort key of every dict is its score entry |
| Rerank.WriteScores | rerank/reranker.py:28-29 | the loop leaves every zipped dict with the last score written to it, and with distinct dicts dict i holds score i |
| Rerank.RerankWithMetadata | rerank/reranker.py:20-32 | the loop writes each zipped dict's score in place (the last write wins when a dict repeats); a dict left without a score raises KeyError; otherwise the top-k dicts in stable descending score order |
| Rerank.LlmRerank | rerank/reranker.py:35-40 | delegates to the language-model reranker unchanged |
| Memory.LastN | memory/memory_manager.py:8 | the last n elements, or all of them when fewer |
| Memory.Append | memory/memory_manager.py:21 | `deque.append`: appended when not full, oldest dropped when full, nothing kept at `maxlen=0`, always within bound |
| Memory.AppendAll | memory/memory_manager.py:21 | repeated appends keep the bound and the capacity |
| Memory.AppendAllKeepsLatest | memory/memory_manager.py:8-21 | a history holding the last `maxlen` messages of a log still does so after any further appends |
| Memory.FromEmptyKeepsLatest | memory/memory_manager.py:8-21 | from empty, a session keeps exactly the last `maxlen` messages sent |
| Memory.MemoryManager.Lookup | memory/memory_manager.py:7-9 | a missing session reads as an empty history of capacity `short_term_limit` |
| Memory.MemoryManager.constructor | memory/memory_manager.py:6-9 | no sessions, capacity `short_term_limit` |
| Memory.MemoryManager.NewSession | memory/memory_manager.py:13-17 | the fresh id gets an empty history of capacity 5, whatever the limit |
| Memory.MemoryManager.AddMessage | memory/memory_manager.py:19-21 | that session's history is appended to (created on demand), and every other session is unchanged |
| Memory.MemoryManager.GetShortTermMemory | memory/memory_manager.py:23-24 | the session's messages oldest first; an unknown id gives `[]` and is inserted |
| Memory.NewSessionThenAdd | memory/memory_manager.py:13-24 | a new session reads back empty, and after one message it holds exactly that message |
| Filters.Matches | filters/metadata_filter.py:17 | the empty query matches everything; metadata containing the query matches; a match agrees on every query key present, and a query key missing from the metadata can only match None |
| Filters.KeptIndices | filters/metadata_filter.py:14-18 | the kept positions are below n and strictly increasing |
| Filters.KeptIndicesMembers | filters/metadata_filter.py:17 | a position is kept iff its metadata agrees with every query pair |
| Filters.KeptStep | filters/metadata_filter.py:14-18 | one more position appends its document iff it matches |
| Filters.KeptAllWhenAllMatch | filters/metadata_filter.py:17 | when every position matches, every position is kept |
| Filters.EmptyQueryKeepsAll | filters/metadata_filter.py:17 | an empty query keeps every document |
| Filters.MetadataFilter.constructor | filters/metadata_filter.py:5-6 | the positional metadata list is stored |
| Filters.MetadataFilter.FilterAsWritten | filters/metadata_filter.py:8-20 | as written: `[]` for no documents, AttributeError for any document |
| Filters.MetadataFilter.Filter | filters/metadata_filter.py:8-20 | reading the stored list: the documents at matching positions, in order; IndexError when there are more documents than metadata |
| Filters.AsWrittenRaisesWhereIntendedKeepsAll | filters/metadata_filter.py:15 | on any non-empty input with enough metadata and an empty query, the code as written raises while the intended filter keeps everything |
| Filters.AsWrittenCounterexample | filters/metadata_filter.py:15 | on `["manual"]` with one empty metadata dict and an empty query, AttributeError as written versus `["manual"]` as intended |
| Api.UploadPath | app/api.py:84 | `os.path.join("uploads_files", filename)` under POSIX rules: an absolute name is kept as it is, any other name goes under `uploads_files/` |
| Api.InRange | app/api.py:118-124 | a catalogued range lies inside the stored chunks, so its count is at most their number |
| Api.SumChunks | app/api.py:118-142 | the catalogued counts summed over the listed ids; 0 when no listed id has a record |
| Api.EmbedAll | app/api.py:98 | one embedding per chunk |
| Api.ChunkMetadata | app/api.py:101 | one metadata entry per chunk; entry i is `{source: filename, chunk_index: i}` |
| Api.SumChunksAppend | app/api.py:118-124 | cataloguing a document adds its chunk count to the total |
| Api.SumChunksFrame | app/api.py:118-124 | a record under an unlisted id changes no total |
| Api.SumChunksRemove | app/api.py:138-142 | deleting a listed document takes exactly its count off the total |
| Api.SumChunksMinus | app/api.py:138-142 | dropping an unlisted record changes no total |
| Api.SumChunksBounds | app/api.py:118-124 | the total is non-negative and bounds each document's count |
| Api.RagService.constructor | app/api.py:53-73 | the catalog reads its file, BM25 starts empty, the vector store has dimension 384 and takes whatever `load` read; a fresh start satisfies the invariant, a full reload of a non-empty store leaves BM25 out of step, and a readable index with an unreadable pickle leaves the vector store unaligned |
| Api.RagService.UploadFile | app/api.py:101-124 | the refused-embeddings case raises with nothing changed; otherwise both indexes grow by exactly the chunks, `texts[start:end] == chunks`, each chunk gets its metadata, and the catalog records `num_chunks = len(chunks)` with the same range; the invariant is kept |
| Api.RagService.StoreChunks | app/api.py:101-124 | for given chunks, the same outcome as the upload: refused embeddings change nothing, otherwise both indexes and the catalog grow by exactly these chunks and the invariant is kept |
| Api.RagService.AppendChunks | app/api.py:105-109 | under the lock, the vector store takes the chunks first and BM25 only when it accepted them; either way the two indexes stay in step |
| Api.RagService.RecordDocument | app/api.py:118-124 | the catalog records the chunks' range under the fresh id, and its counts again account for every stored chunk |
| Api.RagService.DeleteDocument | app/api.py:138-142 | only the catalog record goes; neither index changes; the invariant is kept with the chunks counted as deleted |
| Api.RagService.QueryRag | app/api.py:274-294 | an empty store answers NoDocuments; "vector", "bm25" and "hybrid" run their retriever with `top_k=3`; a hybrid answer is the fused top 3 of the first vector hit and BM25's hits; any other mode answers InvalidMode; every answer is at most 3 stored chunks; a vector query of the right dimension gets exactly 3 |
| Api.RagService.CatalogWithinStore | app/api.py:118-142 | the catalog's chunk counts sum to at most the stored chunks, with equality when nothing was deleted |
| Api.RagService.LexicalHitsStored | app/api.py:287 | BM25 answers at most 3 chunks, all stored |
| Api.RagService.StoredHits | app/api.py:283 | on a non-empty aligned store, a query of the index dimension succeeds, and every hit is a stored chunk |
| Api.FreshUploadThenQuery | app/api.py:101-124 | from a fresh start, uploading non-blank text stores it under the given id, and a BM25 query then answers 1 to 3 chunks |

## Left out

- File I/O is not modelled: saving uploads, the loader's text extraction, the JSON catalog file, and the FAISS and pickle files. The loader's text is the parameter `rawText`, the FAISS and pickle files are `Option` values (None when missing or unreadable), and the catalog file is a `FileState`.
- The embedding model, the cross-encoder and the Okapi formula are parameters: `embed`, the `scores` sequences and `Scorer`.
- The language-model calls (the answer prompt and the reranking prompt) are outside the model. The reranker's parsed reply is an `Option` input, and a failure of `generate_content` itself, which happens outside the `try`, is not modelled.
- Random ids (`uuid4`) and clock readings (`datetime.now`) are parameters (`docId`, `freshId`, `timestamp`).
- Concurrency is not modelled: the `asyncio.Lock`, `to_thread`, the background save and the catalog write outside the lock. Upload runs as one sequential method.
- Floating point is real arithmetic. float32 rounding in FAISS and NumPy is not captured.
- Bm25.IsWordChar and Bm25.LowerChar are ASCII only: `\w` and `str.lower()` on non-ASCII characters are not captured. `\s` (`Preprocessor.IsSpace`) is Python's full Unicode whitespace set.
- BM25Okapi on an empty corpus is not modelled. `add_documents([])` on an empty retriever builds an index here, while the library would divide by zero.
- The empty-embedding case follows the NumPy/FAISS wrapper: an empty array is one-dimensional and is refused. An embedder that returns a `(0, d)` array would instead add nothing and succeed.
- FaissStore.FaissStore.Search: `top_k` is a natural number. FAISS refuses `k = 0`, while the model answers `Ok(([], []))` for it; a negative `k` cannot be written.
- Memory.MemoryManager.constructor: `short_term_limit` is a natural number. A negative limit makes `deque` raise, and that is not modelled.
- Bm25.Bm25Retriever.Retrieve: `top_k` is a natural number. A negative slice bound is not modelled.
- Api.RagService.constructor: the service invariant is proved only from a fresh start. After a full reload, BM25 holds no chunks while the vector store holds the saved ones, so the two are out of step. When the index file reads but `_data.pkl` does not, `load` has already replaced the index (vector_Store/faiss_Store.py:47) and the startup hook swallows the error (app/api.py:65-69): the old vectors stay beside empty texts and metadata, so after a later upload a search label below the old count names an old vector while `texts` at that label is a new chunk. The model states only that the store is then unaligned; later operations require the invariant and are not modelled from that state.
- Api.RagService.QueryRag: it returns the retrieved chunks. The prompt assembly and the answer are left out, as is the `vector_store is None` case before startup.
- Hybrid.HybridRetriever.Retrieve: the order among equal fused scores depends on set iteration order, which the model leaves open; the contract allows ties in any order.
- LlmReranker.LlmRerank: a reply that parses but has an item without `id` or `score` raises KeyError outside the `try` (rerank/llm_reranker.py:37); the model's parsed reply always has both fields, so that error is not modelled. The reply's shape is an input: the model does not capture that the Gemini response the service passes in has no `choices` field, so that as written every call takes the fallback.
- The other endpoints are not part of this model: `/`, `/search/` and `/generate_gemini/`. The `/documents/` listing route is just `MetadataStore.MetadataStore.ListDocuments`.

## Findings

| source | as written | input that shows it | evidently intended | confidence | as-written member | corrected member |
|---|---|---|---|---|---|---|
| filters/metadata_filter.py:15 | the loop reads `self.metadata`, but the constructor stores the list as `self.metadata_store`, so any non-empty `docs` raises AttributeError | `MetadataFilter([{}]).filter(["manual"], {})` | read `self.metadata_store[idx]` and return the documents whose metadata matches | not executed | Filters.MetadataFilter.FilterAsWritten, Filters.AsWrittenCounterexample | Filters.MetadataFilter.Filter |
