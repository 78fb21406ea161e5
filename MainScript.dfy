/** The script main.py: another version of the same procedure. Its
    get_space_dict catches a `KeyError` and falls back to the client's current
    space, its `chunks` is the same generator as chunk_iterator, and its
    delete_permanently always uses chunks of ten. */
module MainScript {
  import opened Json
  import opened NotionClearTrash

  // ---------------------------------------------------------------------------
  // get_space_dict, with its fallback to the current space on a missing key
  // ---------------------------------------------------------------------------

  const DefaultSpaceName := "Default space"

  /** The single entry returned when a key is missing. */
  function DefaultSpaces(currentSpaceId: string): map<string, Json>
  {
    map[currentSpaceId := JString(DefaultSpaceName)]
  }

  /** get_space_dict: the id -> name map of the account's spaces, or, when
      reading the response raises a `KeyError`, the single default entry; any
      other exception propagates. `currentSpaceId` stands for
      `client.current_space.id`. */
  function GetSpaceDict(response: Json, currentSpaceId: string): (r: Outcome<map<string, Json>>)
    // never a partial map: either every space record, or the fallback alone
    ensures r.Ok? ==>
      r.value == DefaultSpaces(currentSpaceId) ||
      (SpaceTable(response).Ok? && SpaceTable(response).value.JObject? &&
       NamesOf(SpaceTable(response).value.fields, r.value))
    // with no key missing, every record is mapped to its name
    ensures (SpaceTable(response).Ok? && SpaceTable(response).value.JObject? &&
             AllNamed(SpaceTable(response).value.fields)) ==>
      r.Ok? && NamesOf(SpaceTable(response).value.fields, r.value)
    // only exceptions other than KeyError escape
    ensures r.Raised? ==> !r.exception.KeyError? && r == NotionClearTrash.GetSpaceDict(response)
  {
    match NotionClearTrash.GetSpaceDict(response)
    case Raised(KeyError(_)) => Ok(DefaultSpaces(currentSpaceId))
    case other => other
  }

  /** A response without `recordMap`, or whose `recordMap` has no `space`,
      yields the fallback entry. */
  lemma MissingTableFallsBack(response: Json, currentSpaceId: string)
    requires
      || (response.JObject? && "recordMap" !in Keys(response.fields))
      || (Index(response, "recordMap").Ok? && Index(response, "recordMap").value.JObject? &&
          "space" !in Keys(Index(response, "recordMap").value.fields))
    ensures GetSpaceDict(response, currentSpaceId) == Ok(DefaultSpaces(currentSpaceId))
  {
  }

  /** When the first space record that cannot be read lacks `value` or `name`,
      the result is exactly the fallback entry, never the records read so far. */
  lemma MissingNameFallsBack(response: Json, currentSpaceId: string, key: string)
    requires SpaceTable(response).Ok? && SpaceTable(response).value.JObject?
    requires FirstFailure(SpaceTable(response).value.fields, KeyError(key))
    ensures GetSpaceDict(response, currentSpaceId) == Ok(DefaultSpaces(currentSpaceId))
  {
    var records := SpaceTable(response).value.fields;
    var strict := NotionClearTrash.GetSpaceDict(response);
    assert !AllNamed(records);
    FirstFailureUnique(records, strict.exception, KeyError(key));
  }

  /** A first unreadable record that is not a dict, or whose `value` is not one,
      raises a `TypeError`, which is not caught. */
  lemma WrongShapePropagates(response: Json, currentSpaceId: string)
    requires SpaceTable(response).Ok? && SpaceTable(response).value.JObject?
    requires FirstFailure(SpaceTable(response).value.fields, TypeError)
    ensures GetSpaceDict(response, currentSpaceId) == Raised(TypeError)
  {
    var records := SpaceTable(response).value.fields;
    var strict := NotionClearTrash.GetSpaceDict(response);
    assert !AllNamed(records);
    FirstFailureUnique(records, strict.exception, TypeError);
  }

  /** A space table that is not a dict has no `.items()`: the `AttributeError`
      is not caught. */
  lemma TableNotDictPropagates(response: Json, currentSpaceId: string)
    requires SpaceTable(response).Ok? && !SpaceTable(response).value.JObject?
    ensures GetSpaceDict(response, currentSpaceId) == Raised(AttributeError)
  {
  }

  // ---------------------------------------------------------------------------
  // get_trash: the ids of the search results
  // ---------------------------------------------------------------------------

  /** get_trash, given the decoded body of the search response: the same
      projection as get_trashed_block_id_list. */
  function GetTrash(response: Json): (r: Outcome<seq<Json>>)
    ensures var results := Index(response, "results");
      results.Ok? && results.value.JArray? ==>
        (r.Ok? <==> forall j :: 0 <= j < |results.value.items| ==> Index(results.value.items[j], "id").Ok?) &&
        (r.Ok? ==> IdsOf(results.value.items, r.value))
    ensures Index(response, "results").Raised? ==> r == Raised(Index(response, "results").exception)
    ensures var results := Index(response, "results");
      results.Ok? && results.value.JObject? ==>
        r == if results.value.fields == [] then Ok([]) else Raised(TypeError)
    ensures var results := Index(response, "results");
      results.Ok? && results.value.JString? ==>
        r == if results.value.s == [] then Ok([]) else Raised(TypeError)
    ensures var results := Index(response, "results");
      results.Ok? && (results.value.JNull? || results.value.JBool? || results.value.JNumber?) ==>
        r == Raised(TypeError)
  {
    GetTrashedBlockIdList(response)
  }

  // ---------------------------------------------------------------------------
  // chunks: consecutive slices of at most n elements
  // ---------------------------------------------------------------------------

  const ChunkSize: nat := 10

  /** Python's `lst[lo:hi]` for non-negative bounds: both are clamped to the length. */
  function Slice<T>(lst: seq<T>, lo: nat, hi: nat): (r: seq<T>)
    ensures |r| <= |lst|
  {
    if lo >= |lst| || hi <= lo then [] else lst[lo .. if hi < |lst| then hi else |lst|]
  }

  /** The chunks, read off the generator as written: one slice for every start
      index `range(0, len(lst), n)` produces. */
  function Chunks<T>(lst: seq<T>, n: nat): seq<seq<T>>
    requires n > 0
  {
    seq((|lst| + n - 1) / n, i requires 0 <= i => Slice(lst, i * n, i * n + n))
  }

  lemma SliceDrop<T>(lst: seq<T>, n: nat, lo: nat, hi: nat)
    requires n <= |lst|
    ensures Slice(lst[n..], lo, hi) == Slice(lst, lo + n, hi + n)
  {
  }

  /** Chunk i of the recursive generator model is the slice starting at i * n. */
  lemma {:induction false} ChunkAt<T>(lst: seq<T>, n: nat, i: nat)
    requires n > 0 && i < |ChunkIterator(lst, n)|
    ensures ChunkIterator(lst, n)[i] == Slice(lst, i * n, i * n + n)
    decreases |lst|
  {
    if |lst| > n && i > 0 {
      ChunkAt(lst[n..], n, i - 1);
      assert (i - 1) * n + n == i * n;
      SliceDrop(lst, n, (i - 1) * n, (i - 1) * n + n);
    }
  }

  /** main.py's `chunks` and notion_clear_trash.py's `chunk_iterator` yield the
      same chunks. */
  lemma ChunksAgree<T>(lst: seq<T>, n: nat)
    requires n > 0
    ensures Chunks(lst, n) == ChunkIterator(lst, n)
  {
    ChunkCount(lst, n);
    forall i | 0 <= i < |Chunks(lst, n)|
      ensures Chunks(lst, n)[i] == ChunkIterator(lst, n)[i]
    {
      ChunkAt(lst, n, i);
    }
  }

  /** `chunks(lst, n)` partitions `lst`: the chunks concatenate to it, none is
      empty or longer than n, only the last may be shorter, and there are
      ceil(|lst| / n) of them. */
  lemma ChunksPartition<T>(lst: seq<T>, n: nat)
    requires n > 0
    ensures Flatten(Chunks(lst, n)) == lst
    ensures forall i :: 0 <= i < |Chunks(lst, n)| ==> 0 < |Chunks(lst, n)[i]| <= n
    ensures forall i :: 0 <= i < |Chunks(lst, n)| - 1 ==> |Chunks(lst, n)[i]| == n
    ensures |Chunks(lst, n)| == (|lst| + n - 1) / n
  {
    ChunksAgree(lst, n);
    ChunksConcatenate(lst, n);
    ChunkLengths(lst, n);
    ChunkCount(lst, n);
  }

  // ---------------------------------------------------------------------------
  // delete_permanently: one best-effort request per chunk of ten
  // ---------------------------------------------------------------------------

  /** delete_permanently: posts one permanent `deleteBlocks` request per chunk
      of ten, catching a failing request and going on with the next chunk. */
  method DeletePermanently(blockIds: seq<BlockId>, fails: Oracle) returns (log: seq<Event>)
    ensures log == DeletionLog(Chunks(blockIds, ChunkSize), fails)
    ensures Requests(log) == Chunks(blockIds, ChunkSize)
    ensures Flatten(Requests(log)) == blockIds
    ensures forall i :: 0 <= i < |Requests(log)| ==> 0 < |Requests(log)[i]| <= ChunkSize
    ensures |Requests(log)| == (|blockIds| + 9) / 10
  {
    var batches := Chunks(blockIds, ChunkSize);
    log := [];
    for i := 0 to |batches|
      invariant log == DeletionLog(batches[..i], fails)
    {
      var batch := batches[i];
      assert batches[..i + 1][..i] == batches[..i];
      log := log + [Request(DeleteEndpoint, batch, true)];
      if fails(i, batch) {
        log := log + [CouldntDelete(batch)];
      } else {
        log := log + [Deleted(batch)];
      }
    }
    assert batches[..|batches|] == batches;
    RequestsOfLog(batches, fails);
    ChunksPartition(blockIds, ChunkSize);
  }
}
