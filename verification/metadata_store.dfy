/** The document catalog (`MetadataStore`): a dictionary from document id to
    the record of one uploaded file. Python dictionaries iterate in
    insertion order, so the model keeps the ids in that order beside the
    map. */
module MetadataStore {
  import opened Common

  /** One catalog record: the uploaded file, its chunk count, where it was
      saved, and the half-open range `[startIdx, endIdx)` of its chunks in
      the vector store. */
  datatype DocRecord = DocRecord(
    filename: string,
    numChunks: int,
    path: string,
    startIdx: int,
    endIdx: int,
    timestamp: string)

  /** One element of `list_documents()`: `{"id": doc_id, **info}`. */
  datatype Listing = Listing(id: string, record: DocRecord)

  /** What `load` finds on disk. */
  datatype FileState =
    | Missing                                                  // no metadata file
    | Corrupt                                                  // not valid JSON
    | Parsed(ids: seq<string>, records: map<string, DocRecord>) // the stored dictionary

  /** The dictionary `self.data` with its iteration order. */
  ghost predicate Consistent(ids: seq<string>, records: map<string, DocRecord>)
  {
    Distinct(ids) && (forall id :: id in records <==> id in ids)
  }

  /** `ids` without `id`, the order of the rest kept. */
  function Remove(ids: seq<string>, id: string): (r: seq<string>)
    ensures forall x :: x in r <==> x in ids && x != id
    ensures Distinct(ids) ==> Distinct(r)
  {
    if ids == [] then []
    else if ids[0] == id then Remove(ids[1..], id)
    else
      var rest := Remove(ids[1..], id);
      assert forall x :: x in rest ==> x in ids[1..];
      assert Distinct(ids) ==> Distinct([ids[0]] + rest) by {
        if Distinct(ids) {
          DistinctTail(ids);
          var r := [ids[0]] + rest;
          forall i, j | 0 <= i < j < |r| ensures r[i] != r[j] {
            assert r[j] == rest[j - 1];
            if i > 0 {
              assert r[i] == rest[i - 1];
            }
          }
        }
      }
      [ids[0]] + rest
  }

  lemma DistinctTail(ids: seq<string>)
    requires Distinct(ids) && ids != []
    ensures Distinct(ids[1..]) && ids[0] !in ids[1..]
  {
    forall k | 0 <= k < |ids[1..]| ensures ids[1..][k] != ids[0] {
      assert ids[1..][k] == ids[k + 1];
    }
  }

  class MetadataStore {
    var ids: seq<string>
    var records: map<string, DocRecord>

    ghost predicate Valid()
      reads this
    {
      Consistent(ids, records)
    }

    /** `__init__`: `self.data = self.load()` followed by a second
        `self.load()`. On a missing or corrupt file `load` sets `data` to
        `{}` and returns None, which the assignment stores; the second call
        sets `{}` again. Only a parsed file survives. */
    constructor (file: FileState)
      requires file.Parsed? ==> Consistent(file.ids, file.records)
      ensures file.Parsed? ==> ids == file.ids && records == file.records
      ensures !file.Parsed? ==> ids == [] && records == map[]
      ensures Valid()
    {
      if file.Parsed? {
        ids := file.ids;
        records := file.records;
      } else {
        ids := [];
        records := map[];
      }
    }

    /** `add_document(...)` under the fresh id `docId` (`uuid4()` in the
        source) with the current time `timestamp`: the id is inserted last,
        every other entry is unchanged, and the id is returned. */
    method AddDocument(docId: string, filename: string, numChunks: int, path: string,
                       startIdx: int, endIdx: int, timestamp: string) returns (id: string)
      requires Valid() && docId !in records
      modifies this
      ensures id == docId
      ensures records == old(records)[docId := DocRecord(filename, numChunks, path, startIdx, endIdx, timestamp)]
      ensures ids == old(ids) + [docId]
      ensures Valid()
    {
      records := records[docId := DocRecord(filename, numChunks, path, startIdx, endIdx, timestamp)];
      ids := ids + [docId];
      id := docId;
    }

    /** `delete_document(doc_id)`: removes the id if present, otherwise
        does nothing. */
    method DeleteDocument(docId: string)
      requires Valid()
      modifies this
      ensures records == old(records) - {docId}
      ensures ids == Remove(old(ids), docId)
      ensures Valid()
    {
      if docId in records {
        records := records - {docId};
        ids := Remove(ids, docId);
      } else {
        RemoveAbsent(ids, docId);
      }
    }

    /** `get_document(doc_id)`: the record, or None for the `{}` that an
        unknown id yields. */
    function GetDocument(docId: string): (r: Option<DocRecord>)
      reads this
      ensures docId in records ==> r == Some(records[docId])
      ensures docId !in records ==> r == None
    {
      if docId in records then Some(records[docId]) else None
    }

    /** `list_documents()`: one listing per stored id, in insertion order. */
    function ListDocuments(): (r: seq<Listing>)
      reads this
      requires Valid()
      ensures |r| == |ids|
      ensures forall p :: 0 <= p < |r| ==> r[p] == Listing(ids[p], records[ids[p]])
    {
      seq(|ids|, p requires 0 <= p < |ids| && Valid() reads this => Listing(ids[p], records[ids[p]]))
    }
  }

  lemma {:induction false} RemoveAbsent(ids: seq<string>, id: string)
    requires id !in ids
    ensures Remove(ids, id) == ids
  {
    if ids != [] {
      RemoveAbsent(ids[1..], id);
    }
  }

  // -----------------------------------------------------------------------
  // Properties
  // -----------------------------------------------------------------------

  /** Deleting twice is deleting once. */
  lemma {:induction false} RemoveIdempotent(ids: seq<string>, id: string)
    ensures Remove(Remove(ids, id), id) == Remove(ids, id)
  {
    RemoveAbsent(Remove(ids, id), id);
  }

  /** Removing an id keeps the order of the others: the result is a
      subsequence of the input. */
  lemma {:induction false} RemoveKeepsOrder(ids: seq<string>, id: string, p: nat, q: nat)
    requires p < q < |Remove(ids, id)|
    ensures exists i, j :: 0 <= i < j < |ids| && ids[i] == Remove(ids, id)[p] && ids[j] == Remove(ids, id)[q]
  {
    var r := Remove(ids, id);
    if ids[0] == id {
      RemoveKeepsOrder(ids[1..], id, p, q);
      var i, j :| 0 <= i < j < |ids[1..]| && ids[1..][i] == r[p] && ids[1..][j] == r[q];
      assert ids[i + 1] == r[p] && ids[j + 1] == r[q];
    } else if p == 0 {
      var rest := Remove(ids[1..], id);
      assert r[q] == rest[q - 1];
      assert r[q] in ids[1..];
      var j :| 0 <= j < |ids[1..]| && ids[1..][j] == r[q];
      assert ids[0] == r[p] && ids[j + 1] == r[q];
    } else {
      var rest := Remove(ids[1..], id);
      assert r[p] == rest[p - 1] && r[q] == rest[q - 1];
      RemoveKeepsOrder(ids[1..], id, p - 1, q - 1);
      var i, j :| 0 <= i < j < |ids[1..]| && ids[1..][i] == r[p] && ids[1..][j] == r[q];
      assert ids[i + 1] == r[p] && ids[j + 1] == r[q];
    }
  }

  /** `list_documents` lists every stored id exactly once and nothing else,
      each with its own record. */
  lemma ListDocumentsExactlyOnce(store: MetadataStore)
    requires store.Valid()
    ensures var r := store.ListDocuments();
            && (forall id :: id in store.records <==> exists p :: 0 <= p < |r| && r[p].id == id)
            && (forall p, q :: 0 <= p < q < |r| ==> r[p].id != r[q].id)
            && (forall p :: 0 <= p < |r| ==> r[p].id in store.records && r[p].record == store.records[r[p].id])
  {
    var r := store.ListDocuments();
    forall id | id in store.records ensures exists p :: 0 <= p < |r| && r[p].id == id {
      var p :| 0 <= p < |store.ids| && store.ids[p] == id;
      assert r[p].id == id;
    }
  }

  /** After an add, the new id reads back the record just stored, and every
      other id reads back what it read before. */
  method AddThenGet(store: MetadataStore, docId: string, other: string, filename: string, numChunks: int,
                    path: string, startIdx: int, endIdx: int, timestamp: string)
    returns (added: Option<DocRecord>, untouched: Option<DocRecord>)
    requires store.Valid() && docId !in store.records && other != docId
    modifies store
    ensures added == Some(DocRecord(filename, numChunks, path, startIdx, endIdx, timestamp))
    ensures untouched == old(store.GetDocument(other))
  {
    var _ := store.AddDocument(docId, filename, numChunks, path, startIdx, endIdx, timestamp);
    added := store.GetDocument(docId);
    untouched := store.GetDocument(other);
  }
}
