/** The vector index (`FaissStore`): an exact, brute-force L2 index
    (`IndexFlatL2`) kept beside two parallel lists, the chunk texts and
    their metadata. */
module FaissStore {
  import opened Common
  import opened Ranking

  /** `IndexFlatL2(d)`: the dimension and the stored vectors, in insertion
      order; a vector's label is its position. */
  datatype FlatIndex = FlatIndex(d: int, rows: seq<seq<real>>)

  /** Every stored vector has the index's dimension. */
  predicate WellFormed(ix: FlatIndex)
  {
    forall i :: 0 <= i < |ix.rows| ==> |ix.rows[i]| == ix.d
  }

  /** The squared Euclidean distance `IndexFlatL2` ranks by. */
  function SquaredL2(a: seq<real>, b: seq<real>): (r: real)
    requires |a| == |b|
    ensures r >= 0.0
    ensures a == b ==> r == 0.0
  {
    if a == [] then 0.0
    else (a[0] - b[0]) * (a[0] - b[0]) + SquaredL2(a[1..], b[1..])
  }

  /** `index.add(vectors)`: the Python wrapper unpacks the array's shape as
      `n, d = x.shape` and asserts `d == self.d`, so an empty list (a
      one-dimensional array) and any vector of another length raise before
      anything is stored. */
  predicate CanAdd(ix: FlatIndex, embeddings: seq<seq<real>>)
    ensures CanAdd(ix, embeddings) && WellFormed(ix) ==> WellFormed(FlatIndex(ix.d, ix.rows + embeddings))
  {
    embeddings != [] && forall i :: 0 <= i < |embeddings| ==> |embeddings[i]| == ix.d
  }

  /** Negated distances from the query to each stored vector, so that the
      descending stable order lists the nearest vector first. */
  function Closeness(ix: FlatIndex, query: seq<real>): (c: seq<real>)
    requires WellFormed(ix) && |query| == ix.d
    ensures |c| == |ix.rows|
    ensures forall i :: 0 <= i < |c| ==> c[i] == -SquaredL2(ix.rows[i], query)
  {
    seq(|ix.rows|, i requires 0 <= i < |ix.rows| => -SquaredL2(ix.rows[i], query))
  }

  /** `index.search(query, k)`'s label row: the k nearest labels, nearest
      first, and -1 for every slot beyond the number of stored vectors. */
  function Labels(ix: FlatIndex, query: seq<real>, k: nat): (labels: seq<int>)
    requires WellFormed(ix) && |query| == ix.d
    ensures |labels| == k
  {
    var near: seq<int> := TopIndices(Closeness(ix, query), k);
    var padding: seq<int> := seq(k - |near|, _ => -1);
    near + padding
  }

  /** What `save` writes: the index file and the
      pickled texts and metadata. */
  datatype Snapshot = Snapshot(index: FlatIndex, texts: seq<string>, metadata: seq<Meta>)

  class FaissStore {
    var dimension: int
    var index: FlatIndex
    var texts: seq<string>
    var metadata: seq<Meta>

    ghost predicate Valid()
      reads this
    {
      WellFormed(index)
    }

    /** One stored vector per text and per metadata entry. */
    ghost predicate Aligned()
      reads this
    {
      |index.rows| == |texts| == |metadata|
    }

    constructor (dimension: int)
      ensures this.dimension == dimension
      ensures index == FlatIndex(dimension, [])
      ensures texts == [] && metadata == []
      ensures Valid() && Aligned()
    {
      this.dimension := dimension;
      index := FlatIndex(dimension, []);
      texts := [];
      metadata := [];
    }

    /** `add(texts, embeddings, metadata)`. When the index refuses the
        vectors nothing changes; otherwise one row per embedding is stored
        and both lists are extended, in order, by exactly the given
        entries. */
    method Add(newTexts: seq<string>, embeddings: seq<seq<real>>, newMetadata: seq<Meta>) returns (ok: bool)
      requires Valid()
      modifies this
      ensures ok == CanAdd(old(index), embeddings)
      ensures ok ==> index == FlatIndex(old(index).d, old(index).rows + embeddings)
      ensures ok ==> texts == old(texts) + newTexts && metadata == old(metadata) + newMetadata
      ensures !ok ==> index == old(index) && texts == old(texts) && metadata == old(metadata)
      ensures dimension == old(dimension)
      ensures Valid()
      ensures old(Aligned()) && |embeddings| == |newTexts| == |newMetadata| ==> Aligned()
    {
      if !CanAdd(index, embeddings) {
        return false;
      }
      index := FlatIndex(index.d, index.rows + embeddings);
      texts := texts + newTexts;
      metadata := metadata + newMetadata;
      ok := true;
    }

    /** `search(query_embedding, top_k)`: `[texts[i] for i in labels]` and
        `[metadata[i] for i in labels]`, where a -1 label reads the last
        entry as Python's negative indexing does. FAISS refuses `k = 0`;
        the model instead answers `Ok(([], []))` for it. */
    function Search(query: seq<real>, topK: nat): (r: Result<(seq<string>, seq<Meta>)>)
      reads this
      requires Valid()
      ensures |query| != index.d ==> r == Err(DimensionMismatch)
      ensures |query| == index.d ==>
                var labels := Labels(index, query, topK);
                && (r.Ok? <==> forall p :: 0 <= p < topK ==>
                                 PyGet(texts, labels[p]).Some? && PyGet(metadata, labels[p]).Some?)
                && (r.Ok? ==> |r.value.0| == |r.value.1| == topK)
                && (r.Ok? ==> forall p :: 0 <= p < topK ==>
                                Some(r.value.0[p]) == PyGet(texts, labels[p]) &&
                                Some(r.value.1[p]) == PyGet(metadata, labels[p]))
      ensures r.Err? ==> r.error in {DimensionMismatch, IndexError}
      ensures |query| == index.d && topK == 0 ==> r == Ok(([], []))
    {
      if |query| != index.d then Err(DimensionMismatch)
      else
        var labels := Labels(index, query, topK);
        match PyGetAll(texts, labels)
        case None => Err(IndexError)
        case Some(ts) =>
          match PyGetAll(metadata, labels)
          case None => Err(IndexError)
          case Some(ms) => Ok((ts, ms))
    }

    /** `save(file_path)`: the state it persists. */
    function Save(): (s: Snapshot)
      reads this
      ensures s.index == index && s.texts == texts && s.metadata == metadata
    {
      Snapshot(index, texts, metadata)
    }

    /** `load(file_path)` on what the two files read back as (None for a
        file that is missing or does not parse). The index file is read and
        assigned first: when it fails nothing changes; when only the
        pickled lists then fail, the new index stays beside the old texts
        and metadata. Either failure raises (`ok` false). When both read,
        the index and both lists are the saved ones. `dimension` is never
        touched. */
    method Load(indexFile: Option<FlatIndex>, dataFile: Option<(seq<string>, seq<Meta>)>) returns (ok: bool)
      requires indexFile.Some? ==> WellFormed(indexFile.value)
      requires Valid()
      modifies this
      ensures ok <==> indexFile.Some? && dataFile.Some?
      ensures index == (if indexFile.Some? then indexFile.value else old(index))
      ensures texts == (if ok then dataFile.value.0 else old(texts))
      ensures metadata == (if ok then dataFile.value.1 else old(metadata))
      ensures dimension == old(dimension)
      ensures Valid()
    {
      if indexFile.None? {
        return false;
      }
      index := indexFile.value;
      if dataFile.None? {
        return false;
      }
      texts := dataFile.value.0;
      metadata := dataFile.value.1;
      ok := true;
    }
  }

  // -----------------------------------------------------------------------
  // Properties
  // -----------------------------------------------------------------------

  /** With no more neighbours requested than stored vectors, and lists at
      least as long as the index, the search succeeds: it returns the texts
      and metadata of the same labels, nearest first, and every vector left
      out is at least as far as every one returned. */
  lemma SearchNearest(store: FaissStore, query: seq<real>, topK: nat)
    requires store.Valid() && |query| == store.index.d
    requires topK <= |store.index.rows| <= |store.texts| && |store.index.rows| <= |store.metadata|
    ensures var r, rows := store.Search(query, topK), store.index.rows;
            var near := TopIndices(Closeness(store.index, query), topK);
            && |near| == topK
            && r.Ok?
            && (forall p :: 0 <= p < topK ==>
                  r.value.0[p] == store.texts[near[p]] && r.value.1[p] == store.metadata[near[p]])
            && (forall p, q :: 0 <= p < q < topK ==>
                  SquaredL2(rows[near[p]], query) <= SquaredL2(rows[near[q]], query))
            && (forall i, p :: 0 <= i < |rows| && i !in near && 0 <= p < topK ==>
                  SquaredL2(rows[near[p]], query) <= SquaredL2(rows[i], query))
  {
    var c := Closeness(store.index, query);
    var near := TopIndices(c, topK);
    var labels := Labels(store.index, query, topK);
    assert labels == near + [];
    RankedScoresNonIncreasing(c, near);
  }

  /** Asking for more neighbours than stored vectors pads the label row with
      -1, which Python reads as the last entry: the extra slots repeat the
      last text, and with no texts at all the search raises IndexError. */
  lemma SearchPadding(store: FaissStore, query: seq<real>, topK: nat)
    requires store.Valid() && |query| == store.index.d
    requires |store.index.rows| < topK
    ensures store.texts == [] ==> store.Search(query, topK) == Err(IndexError)
    ensures var r := store.Search(query, topK);
            r.Ok? ==> forall p :: |store.index.rows| <= p < topK ==>
                        r.value.0[p] == store.texts[|store.texts| - 1]
  {
    var labels := Labels(store.index, query, topK);
    var n := |store.index.rows|;
    assert labels[n] == -1;
    forall p | n <= p < topK ensures labels[p] == -1 {
    }
  }

  /** Restoring a snapshot undoes every later add: saving, adding and
      loading leaves the store as it was. */
  method SaveAddLoad(store: FaissStore, newTexts: seq<string>, embeddings: seq<seq<real>>, newMetadata: seq<Meta>)
    requires store.Valid()
    modifies store
    ensures store.index == old(store.index) && store.texts == old(store.texts)
    ensures store.metadata == old(store.metadata) && store.dimension == old(store.dimension)
  {
    var snapshot := store.Save();
    var _ := store.Add(newTexts, embeddings, newMetadata);
    var ok := store.Load(Some(snapshot.index), Some((snapshot.texts, snapshot.metadata)));
  }
}
