/** The script notion_clear_trash.py: enumerate the spaces of an account, list
    the trashed blocks of a space, and delete block ids permanently in chunks,
    one best-effort request per chunk.

    The Notion client is not modelled: each function takes the decoded body of
    the response it reads, and the deleter takes an oracle that says which of
    its requests raise. */
module NotionClearTrash {
  import opened Json

  // ---------------------------------------------------------------------------
  // get_space_dict: space id -> space name
  // ---------------------------------------------------------------------------

  /** The table of space records: the `space` entry of the response's `recordMap`. */
  function SpaceTable(response: Json): Outcome<Json>
  {
    var recordMap :- Index(response, "recordMap");
    Index(recordMap, "space")
  }

  /** The name of one space record: the `name` entry of its `value`. */
  function SpaceName(record: Json): Outcome<Json>
  {
    var value :- Index(record, "value");
    Index(value, "name")
  }

  /** Every record has a `value` dict with a `name`. */
  ghost predicate AllNamed(records: seq<Field>)
  {
    forall i :: 0 <= i < |records| ==> SpaceName(records[i].value).Ok?
  }

  /** `m` maps exactly the ids of the table, each to its record's name. */
  ghost predicate NamesOf(records: seq<Field>, m: map<string, Json>)
  {
    && m.Keys == Keys(records)
    && forall k :: k in m ==> Lookup(records, k).Some? && SpaceName(Lookup(records, k).value) == Ok(m[k])
  }

  /** `e` is what the record that fails first, in iteration order, raises. */
  ghost predicate FirstFailure(records: seq<Field>, e: Exception)
  {
    exists i :: 0 <= i < |records| && SpaceName(records[i].value) == Raised(e) &&
      forall j :: 0 <= j < i ==> SpaceName(records[j].value).Ok?
  }

  lemma FirstFailureUnique(records: seq<Field>, e1: Exception, e2: Exception)
    requires FirstFailure(records, e1) && FirstFailure(records, e2)
    ensures e1 == e2
  {
  }

  /** The dict comprehension over the records, evaluated in iteration order:
      the first record without a name raises, otherwise every id is mapped. */
  function NameMap(records: seq<Field>): Outcome<map<string, Json>>
    decreases |records|
  {
    if records == [] then Ok(map[])
    else
      var m :- NameMap(records[..|records| - 1]);
      var name :- SpaceName(records[|records| - 1].value);
      Ok(m[records[|records| - 1].key := name])
  }

  /** The comprehension succeeds exactly when every record is named, and then
      maps every id of the table, and only those, to its record's name. */
  lemma {:induction false} NameMapComplete(records: seq<Field>)
    ensures NameMap(records).Ok? <==> AllNamed(records)
    ensures NameMap(records).Ok? ==> NamesOf(records, NameMap(records).value)
    decreases |records|
  {
    if records != [] {
      var prefix, last := records[..|records| - 1], records[|records| - 1];
      NameMapComplete(prefix);
      assert AllNamed(records) <==> AllNamed(prefix) && SpaceName(last.value).Ok? by {
        assert forall i :: 0 <= i < |prefix| ==> prefix[i] == records[i];
      }
      if NameMap(prefix).Ok? && SpaceName(last.value).Ok? {
        NameMapStep(prefix, last, NameMap(prefix).value, SpaceName(last.value).value);
      }
    }
  }

  lemma NameMapStep(prefix: seq<Field>, last: Field, m: map<string, Json>, name: Json)
    requires NamesOf(prefix, m) && SpaceName(last.value) == Ok(name)
    ensures NamesOf(prefix + [last], m[last.key := name])
  {
    var records := prefix + [last];
    assert records[..|records| - 1] == prefix;
    var m' := m[last.key := name];
    assert Keys(records) == Keys(prefix) + {last.key};
    forall k | k in m'
      ensures Lookup(records, k).Some? && SpaceName(Lookup(records, k).value) == Ok(m'[k])
    {
      if k != last.key {
        assert Lookup(records, k) == Lookup(prefix, k);
      }
    }
  }

  /** When the comprehension raises, it raises what the first failing record raises. */
  lemma {:induction false} NameMapFirstFailure(records: seq<Field>)
    ensures NameMap(records).Raised? ==> FirstFailure(records, NameMap(records).exception)
    decreases |records|
  {
    if records != [] {
      var prefix, last := records[..|records| - 1], records[|records| - 1];
      assert forall i :: 0 <= i < |prefix| ==> prefix[i] == records[i];
      NameMapFirstFailure(prefix);
      NameMapComplete(prefix);
      if NameMap(prefix).Ok? && NameMap(records).Raised? {
        assert SpaceName(records[|prefix|].value) == Raised(NameMap(records).exception);
      }
    }
  }

  /** get_space_dict: the id -> name map of the account's spaces. Missing keys
      and wrongly shaped values raise; nothing here catches them. */
  function GetSpaceDict(response: Json): (r: Outcome<map<string, Json>>)
    ensures r.Ok? <==>
      SpaceTable(response).Ok? && SpaceTable(response).value.JObject? &&
      AllNamed(SpaceTable(response).value.fields)
    ensures r.Ok? ==> NamesOf(SpaceTable(response).value.fields, r.value)
    ensures r.Raised? && SpaceTable(response).Ok? && SpaceTable(response).value.JObject? ==>
      FirstFailure(SpaceTable(response).value.fields, r.exception)
    // a missing `recordMap` or `space`, or a response or recordMap that is not a dict
    ensures SpaceTable(response).Raised? ==> r == Raised(SpaceTable(response).exception)
    // `.items()` on a table that is not a dict
    ensures SpaceTable(response).Ok? && !SpaceTable(response).value.JObject? ==> r == Raised(AttributeError)
  {
    var spaces :- SpaceTable(response);
    var records :- Items(spaces);
    NameMapComplete(records);
    NameMapFirstFailure(records);
    NameMap(records)
  }

  // ---------------------------------------------------------------------------
  // get_trashed_block_id_list: the ids of the search results
  // ---------------------------------------------------------------------------

  /** `ids` lists the `id` of every block, position by position. */
  ghost predicate IdsOf(blocks: seq<Json>, ids: seq<Json>)
  {
    |ids| == |blocks| && forall j :: 0 <= j < |blocks| ==> Index(blocks[j], "id") == Ok(ids[j])
  }

  /** The list comprehension, evaluated left to right: the first block without
      an `id` raises, otherwise the ids come out in the order of the blocks. */
  function ProjectIds(blocks: seq<Json>): (r: Outcome<seq<Json>>)
    ensures r.Ok? <==> forall j :: 0 <= j < |blocks| ==> Index(blocks[j], "id").Ok?
    ensures r.Ok? ==> IdsOf(blocks, r.value)
    ensures r.Raised? ==>
      exists j :: 0 <= j < |blocks| && Index(blocks[j], "id") == Raised(r.exception) &&
        forall k :: 0 <= k < j ==> Index(blocks[k], "id").Ok?
    decreases |blocks|
  {
    if blocks == [] then Ok([])
    else
      var id :- Index(blocks[0], "id");
      var rest :- ProjectIds(blocks[1..]);
      Ok([id] + rest)
  }

  /** get_trashed_block_id_list, given the decoded body of the search response. */
  function GetTrashedBlockIdList(response: Json): (r: Outcome<seq<Json>>)
    ensures var results := Index(response, "results");
      results.Ok? && results.value.JArray? ==>
        (r.Ok? <==> forall j :: 0 <= j < |results.value.items| ==> Index(results.value.items[j], "id").Ok?) &&
        (r.Ok? ==> IdsOf(results.value.items, r.value))
    ensures Index(response, "results").Raised? ==> r == Raised(Index(response, "results").exception)
    // iterating a dict visits its keys and a string its characters; indexing those raises
    ensures var results := Index(response, "results");
      results.Ok? && results.value.JObject? ==>
        r == if results.value.fields == [] then Ok([]) else Raised(TypeError)
    ensures var results := Index(response, "results");
      results.Ok? && results.value.JString? ==>
        r == if results.value.s == [] then Ok([]) else Raised(TypeError)
    // null, numbers and booleans are not iterable
    ensures var results := Index(response, "results");
      results.Ok? && (results.value.JNull? || results.value.JBool? || results.value.JNumber?) ==>
        r == Raised(TypeError)
  {
    var results :- Index(response, "results");
    var blocks :- Iterate(results);
    ProjectIds(blocks)
  }

  // ---------------------------------------------------------------------------
  // chunk_iterator: consecutive slices of at most chunk_size elements
  // ---------------------------------------------------------------------------

  /** The default chunk size of delete_permanently. */
  const DefaultChunkSize: nat := 10

  /** The chunks the generator yields, one yield peeled off at a time. */
  function ChunkIterator<T>(lst: seq<T>, chunkSize: nat): seq<seq<T>>
    requires chunkSize > 0
    decreases |lst|
  {
    if lst == [] then []
    else if |lst| <= chunkSize then [lst]
    else [lst[..chunkSize]] + ChunkIterator(lst[chunkSize..], chunkSize)
  }

  /** The concatenation of a sequence of chunks. */
  function Flatten<T>(chunks: seq<seq<T>>): seq<T>
    decreases |chunks|
  {
    if chunks == [] then [] else chunks[0] + Flatten(chunks[1..])
  }

  /** Chunking is a partition: nothing dropped, duplicated or reordered. */
  lemma {:induction false} ChunksConcatenate<T>(lst: seq<T>, chunkSize: nat)
    requires chunkSize > 0
    ensures Flatten(ChunkIterator(lst, chunkSize)) == lst
    decreases |lst|
  {
    if lst != [] && |lst| > chunkSize {
      ChunksConcatenate(lst[chunkSize..], chunkSize);
      assert lst == lst[..chunkSize] + lst[chunkSize..];
    }
  }

  /** No chunk is empty or longer than the chunk size, and only the last one
      may be shorter. */
  lemma {:induction false} ChunkLengths<T>(lst: seq<T>, chunkSize: nat)
    requires chunkSize > 0
    ensures forall i :: 0 <= i < |ChunkIterator(lst, chunkSize)| ==>
      0 < |ChunkIterator(lst, chunkSize)[i]| <= chunkSize
    ensures forall i :: 0 <= i < |ChunkIterator(lst, chunkSize)| - 1 ==>
      |ChunkIterator(lst, chunkSize)[i]| == chunkSize
    decreases |lst|
  {
    if lst != [] && |lst| > chunkSize {
      ChunkLengths(lst[chunkSize..], chunkSize);
      var chunks, rest := ChunkIterator(lst, chunkSize), ChunkIterator(lst[chunkSize..], chunkSize);
      assert chunks == [lst[..chunkSize]] + rest;
    }
  }

  /** The number of chunks is ceil(|lst| / chunkSize); an empty list gives none. */
  lemma {:induction false} ChunkCount<T>(lst: seq<T>, chunkSize: nat)
    requires chunkSize > 0
    ensures |ChunkIterator(lst, chunkSize)| == (|lst| + chunkSize - 1) / chunkSize
    ensures ChunkIterator(lst, chunkSize) == [] <==> lst == []
    decreases |lst|
  {
    if lst == [] {
      DivIsZero(chunkSize - 1, chunkSize);
    } else if |lst| <= chunkSize {
      DivShift(|lst| - 1, chunkSize);
      DivIsZero(|lst| - 1, chunkSize);
    } else {
      ChunkCount(lst[chunkSize..], chunkSize);
      DivShift(|lst| - 1, chunkSize);
    }
  }

  lemma DivIsZero(x: nat, n: nat)
    requires x < n
    ensures x / n == 0
  {
  }

  lemma MulMono(k1: int, k2: int, n: nat)
    requires k1 <= k2
    ensures k1 * n <= k2 * n
  {
  }

  lemma DivUnique(y: int, n: int, q: int, r: int)
    requires n > 0 && 0 <= r < n && y == q * n + r
    ensures y / n == q
  {
    var q' := y / n;
    if q' > q {
      MulMono(q + 1, q', n);
    } else if q' < q {
      MulMono(q', q - 1, n);
    }
  }

  lemma DivShift(x: nat, n: nat)
    requires n > 0
    ensures (x + n) / n == x / n + 1
  {
    var q, r := x / n, x % n;
    assert x + n == (q + 1) * n + r;
    DivUnique(x + n, n, q + 1, r);
  }

  // ---------------------------------------------------------------------------
  // delete_permanently: one best-effort `deleteBlocks` request per chunk
  // ---------------------------------------------------------------------------

  type BlockId = string

  const DeleteEndpoint := "deleteBlocks"

  /** What the deleter does, in order: the requests it posts and the outcome
      it prints for each of them. */
  datatype Event =
    | Request(endpoint: string, blockIds: seq<BlockId>, permanentlyDelete: bool)
    | Deleted(batch: seq<BlockId>)
    | CouldntDelete(batch: seq<BlockId>)

  /** fails(i, batch): the i-th request, for batch, raises. */
  type Oracle = (nat, seq<BlockId>) -> bool

  /** One pass of the loop body: post the request, then print one outcome. */
  function Attempt(batch: seq<BlockId>, failed: bool): seq<Event>
  {
    [Request(DeleteEndpoint, batch, true), if failed then CouldntDelete(batch) else Deleted(batch)]
  }

  /** The events of the loop over `batches`, whatever the client answers. */
  function DeletionLog(batches: seq<seq<BlockId>>, fails: Oracle): (log: seq<Event>)
    ensures |log| == 2 * |batches|
    decreases |batches|
  {
    if batches == [] then []
    else
      var n := |batches| - 1;
      DeletionLog(batches[..n], fails) + Attempt(batches[n], fails(n, batches[n]))
  }

  /** The batches posted, in the order of the log. */
  function Requests(log: seq<Event>): seq<seq<BlockId>>
    decreases |log|
  {
    if log == [] then []
    else (if log[0].Request? then [log[0].blockIds] else []) + Requests(log[1..])
  }

  lemma {:induction false} RequestsAppend(a: seq<Event>, b: seq<Event>)
    ensures Requests(a + b) == Requests(a) + Requests(b)
    decreases |a|
  {
    if a != [] {
      assert (a + b)[0] == a[0];
      assert (a + b)[1..] == a[1..] + b;
      RequestsAppend(a[1..], b);
    } else {
      assert a + b == b;
    }
  }

  /** Chunk i is posted at position 2i of the log, as a permanent deletion of
      exactly that chunk, and exactly one outcome follows it at 2i + 1:
      "Couldn't delete" when the request raised, "Deleted" otherwise. */
  lemma {:induction false} DeletionLogShape(batches: seq<seq<BlockId>>, fails: Oracle)
    ensures var log := DeletionLog(batches, fails);
      |log| == 2 * |batches| &&
      forall i :: 0 <= i < |batches| ==>
        log[2 * i] == Request(DeleteEndpoint, batches[i], true) &&
        log[2 * i + 1] == if fails(i, batches[i]) then CouldntDelete(batches[i]) else Deleted(batches[i])
    decreases |batches|
  {
    if batches != [] {
      var n := |batches| - 1;
      var prefix := batches[..n];
      DeletionLogShape(prefix, fails);
      var log := DeletionLog(batches, fails);
      var head := DeletionLog(prefix, fails);
      assert log == head + Attempt(batches[n], fails(n, batches[n]));
      forall i | 0 <= i < |batches|
        ensures log[2 * i] == Request(DeleteEndpoint, batches[i], true)
        ensures log[2 * i + 1] == if fails(i, batches[i]) then CouldntDelete(batches[i]) else Deleted(batches[i])
      {
        if i < n {
          assert prefix[i] == batches[i];
          assert log[2 * i] == head[2 * i] && log[2 * i + 1] == head[2 * i + 1];
        }
      }
    }
  }

  /** Every batch is posted, in order, and nothing else is. */
  lemma {:induction false} RequestsOfLog(batches: seq<seq<BlockId>>, fails: Oracle)
    ensures Requests(DeletionLog(batches, fails)) == batches
    decreases |batches|
  {
    if batches != [] {
      var n := |batches| - 1;
      RequestsOfLog(batches[..n], fails);
      var attempt := Attempt(batches[n], fails(n, batches[n]));
      RequestsAppend(DeletionLog(batches[..n], fails), attempt);
      assert Requests(attempt[1..]) == [];
      assert Requests(attempt) == [batches[n]];
      assert batches == batches[..n] + [batches[n]];
    }
  }

  /** Failure isolation: when the request for chunk i raises, "Couldn't delete"
      is recorded for it and every later chunk is still posted. */
  lemma FailureIsolation(batches: seq<seq<BlockId>>, fails: Oracle, i: nat)
    requires i < |batches| && fails(i, batches[i])
    ensures var log := DeletionLog(batches, fails);
      log[2 * i + 1] == CouldntDelete(batches[i]) &&
      forall j :: i < j < |batches| ==> log[2 * j] == Request(DeleteEndpoint, batches[j], true)
  {
    DeletionLogShape(batches, fails);
  }

  /** The requests posted do not depend on what the client answers. */
  lemma RequestsIgnoreOutcomes(batches: seq<seq<BlockId>>, fails1: Oracle, fails2: Oracle)
    ensures Requests(DeletionLog(batches, fails1)) == Requests(DeletionLog(batches, fails2))
  {
    RequestsOfLog(batches, fails1);
    RequestsOfLog(batches, fails2);
  }

  /** delete_permanently: posts one permanent `deleteBlocks` request per chunk of
      `blockIdList`, catching a failing request and going on with the next chunk.
      The log it returns stands for the requests and the lines it prints. */
  method DeletePermanently(blockIdList: seq<BlockId>, chunkSize: nat, fails: Oracle)
    returns (log: seq<Event>)
    requires chunkSize > 0
    ensures log == DeletionLog(ChunkIterator(blockIdList, chunkSize), fails)
    ensures Requests(log) == ChunkIterator(blockIdList, chunkSize)
    ensures Flatten(Requests(log)) == blockIdList
    ensures |Requests(log)| == (|blockIdList| + chunkSize - 1) / chunkSize
    ensures blockIdList == [] ==> log == []
  {
    var batches := ChunkIterator(blockIdList, chunkSize);
    log := [];
    for i := 0 to |batches|
      invariant log == DeletionLog(batches[..i], fails)
    {
      var batch := batches[i];
      assert batches[..i + 1][..i] == batches[..i];
      log := log + [Request(DeleteEndpoint, batch, true)];
      if fails(i, batch) {
        log := log + [CouldntDelete(batch)];
      } else {
        log := log + [Deleted(batch)];
      }
    }
    assert batches[..|batches|] == batches;
    RequestsOfLog(batches, fails);
    ChunksConcatenate(blockIdList, chunkSize);
    ChunkCount(blockIdList, chunkSize);
  }
}
