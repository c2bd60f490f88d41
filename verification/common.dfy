/** Shared vocabulary: failure-compatible results, the dynamic values that the
    service keeps in its metadata dictionaries, and Python's slicing and
    indexing rules, which several components rely on. */
module Common {

  datatype Option<T> = None | Some(value: T)

  /** The exceptions and error replies the modelled code can produce. */
  datatype Error =
    | IndexError          // a list index outside the list
    | DimensionMismatch   // a vector whose length is not the index dimension
    | ShapeError          // an embedding array the index refuses to add
    | AttributeError      // an attribute the object does not have
    | KeyError            // a dictionary key that is not present
    | NoDocuments         // the query endpoint found an empty vector store
    | InvalidMode         // the query endpoint got an unknown retrieval mode

  datatype Result<T> = Ok(value: T) | Err(error: Error)

  /** A dictionary value as far as the metadata code compares them; `Null`
      is Python's None, which `dict.get` returns for a missing key. */
  datatype Value = Null | Str(s: string) | Int(i: int)

  /** A metadata dictionary. */
  type Meta = map<string, Value>

  /** `meta.get(key)`: the stored value, or None when the key is missing. */
  function Get(meta: Meta, key: string): Value
  {
    if key in meta then meta[key] else Null
  }

  function Min(a: int, b: int): int
  {
    if a <= b then a else b
  }

  predicate Distinct<T(==)>(s: seq<T>)
  {
    forall i, j :: 0 <= i < j < |s| ==> s[i] != s[j]
  }

  /** Python's normalisation of one slice bound against a length. */
  function SliceBound(b: int, len: nat): (r: nat)
    ensures r <= len
  {
    if b < 0 then (if b + len < 0 then 0 else b + len)
    else if b > len then len
    else b
  }

  /** `s[a:b]` with Python's semantics for a step of one: negative bounds
      count from the end, bounds are clamped to the string, and an empty
      range gives the empty string. */
  function PySlice<T>(s: seq<T>, a: int, b: int): (r: seq<T>)
    ensures |r| <= |s|
    ensures 0 <= a <= b <= |s| ==> r == s[a..b]
    ensures 0 <= a <= |s| <= b ==> r == s[a..]
    ensures |s| <= a ==> r == []
  {
    var lo, hi := SliceBound(a, |s|), SliceBound(b, |s|);
    if lo >= hi then [] else s[lo..hi]
  }

  /** `s[i]` with Python's semantics: a negative index counts from the end,
      and an index outside the list raises IndexError (None here). */
  function PyGet<T>(s: seq<T>, i: int): (r: Option<T>)
    ensures 0 <= i < |s| ==> r == Some(s[i])
    ensures -|s| <= i < 0 ==> r == Some(s[|s| + i])
    ensures r.None? <==> (i >= |s| || i < -|s|)
  {
    if 0 <= i < |s| then Some(s[i])
    else if -|s| <= i < 0 then Some(s[|s| + i])
    else None
  }

  /** `[s[i] for i in labels]`: every lookup must succeed. */
  function PyGetAll<T>(s: seq<T>, labels: seq<int>): (r: Option<seq<T>>)
    ensures r.Some? <==> forall p :: 0 <= p < |labels| ==> PyGet(s, labels[p]).Some?
    ensures r.Some? ==> |r.value| == |labels|
    ensures r.Some? ==> forall p :: 0 <= p < |labels| ==> Some(r.value[p]) == PyGet(s, labels[p])
  {
    if labels == [] then Some([])
    else
      match PyGetAll(s, labels[..|labels| - 1])
      case None => None
      case Some(front) =>
        match PyGet(s, labels[|labels| - 1])
        case None => None
        case Some(x) => Some(front + [x])
  }
}
