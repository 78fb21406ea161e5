# notion-clear-trash, modelled in Dafny

The repository empties the trash of a Notion account. It asks the platform
for the spaces the account belongs to, lists the trashed blocks of each
space, and deletes those block ids permanently in chunks of ten. It makes one
`deleteBlocks` request per chunk. A request that fails is reported and the
loop goes on with the next chunk. The repository holds the procedure twice:
`notion_clear_trash.py` and another version, `main.py`.

The model has three modules:

- `Json` (Json.dfy): the decoded response bodies, and the bits of Python's
  semantics the scripts rely on. Subscripting with a string key raises
  `KeyError` on a dict without that key and `TypeError` on anything else.
  Iteration visits a list's items, a dict's keys or a string's characters.
  `.items()` exists only on a dict and raises `AttributeError` otherwise.
  Objects keep their fields in document order, because that is the order a
  Python dict is iterated in. In `main.py` that order decides which exception
  is raised first, and so whether the fallback applies.
- `NotionClearTrash` (NotionClearTrash.dfy): `get_space_dict`,
  `get_trashed_block_id_list`, `chunk_iterator` and `delete_permanently` of
  `notion_clear_trash.py`.
- `MainScript` (MainScript.dfy): `get_space_dict` with its `KeyError` fallback,
  `get_trash`, `chunks` and `delete_permanently` (fixed size 10) of `main.py`.

The Notion client is replaced in two ways. A reading function takes the
decoded JSON body the client would return. A deleter takes an oracle
`fails(i, batch)` that says whether its i-th request, for `batch`, raises.
Each deleter is a method with a loop. It returns the log of what it does:
`Request(endpoint, blockIds, permanentlyDelete)` for each post, then either
`Deleted(batch)` or `CouldntDelete(batch)` for each printed outcome. The log
is proved equal to `DeletionLog`, a function of the chunks and the oracle.
Lemmas about that function state the properties of the deleter.

`chunk_iterator` and `main.py`'s `chunks` are the same generator: one slice
of the list per start index of the step range. The model writes it in two
forms. `NotionClearTrash.ChunkIterator` is recursive and peels off one yield
at a time; `MainScript.Chunks` is the literal range-and-slice form.
`MainScript.ChunkAt` and `MainScript.ChunksAgree` prove the two forms equal,
so the properties proved of either hold for both generators.

Two facts about the scripts that the model keeps:

- Neither script prints a "no pages found" notice; an empty block list makes
  no request.
- `main.py`'s fallback catches only `KeyError`. A record that is not a dict,
  or a space table that is not a dict, raises `TypeError` or
  `AttributeError`, and those propagate. `notion_clear_trash.py` has no
  fallback at all.

## Model

| member | source | states |
|---|---|---|
| `NotionClearTrash.NameMapComplete` | notion_clear_trash.py:32 | the comprehension succeeds exactly when every space record has `value.name`; then its key set is the table's key set and every id maps to its record's name |
| `NotionClearTrash.NameMapFirstFailure` | notion_clear_trash.py:32 | when the comprehension raises, it raises the exception of the first record, in dict order, that cannot be read |
| `NotionClearTrash.GetSpaceDict` | notion_clear_trash.py:30-32 | succeeds exactly when `recordMap.space` is a dict whose records all have `value.name`, and then maps exactly its ids to their names; a missing `recordMap` or `space` (or a non-dict on the way) propagates its `KeyError` or `TypeError`, a non-dict table raises `AttributeError`, and otherwise the first failing record's exception propagates |
| `NotionClearTrash.ProjectIds` | notion_clear_trash.py:67 | the id list has the length of the results list and element j is `results[j]['id']`; it fails exactly when some result lacks an id, with the first such failure |
| `NotionClearTrash.GetTrashedBlockIdList` | notion_clear_trash.py:65-67 | for a `results` list, the ids of its blocks in their order, failing exactly when one lacks an `id`; a missing `results` key propagates; an empty dict or string gives `[]`, a non-empty one or a null, number or boolean raises `TypeError` |
| `NotionClearTrash.ChunksConcatenate` | notion_clear_trash.py:89-92 | concatenating the chunks gives back the list: nothing dropped, duplicated or reordered |
| `NotionClearTrash.ChunkLengths` | notion_clear_trash.py:91-92 | every chunk has between 1 and chunk_size elements, and every chunk but the last has exactly chunk_size |
| `NotionClearTrash.ChunkCount` | notion_clear_trash.py:91 | there are ceil(len / chunk_size) chunks, and none exactly when the list is empty |
| `NotionClearTrash.DeletionLogShape` | notion_clear_trash.py:76-85 | chunk i is posted at log position 2i as a permanent `deleteBlocks` of exactly that chunk; exactly one outcome follows at 2i+1, "Couldn't delete" when the request raised and "Deleted" otherwise |
| `NotionClearTrash.RequestsOfLog` | notion_clear_trash.py:76-82 | the posted batches, in log order, are exactly the chunks, in chunk order |
| `NotionClearTrash.FailureIsolation` | notion_clear_trash.py:77-85 | if the request for chunk i raises, "Couldn't delete" is recorded for chunk i and every later chunk is still posted |
| `NotionClearTrash.RequestsIgnoreOutcomes` | notion_clear_trash.py:76-85 | the requests posted are the same whatever the client answers |
| `NotionClearTrash.DeletePermanently` | notion_clear_trash.py:71-85 | the loop's log is the deletion log of the chunks; the posted batches are the chunks, concatenate to the id list and number ceil(len / chunk_size); an empty list posts nothing |
| `MainScript.GetSpaceDict` | main.py:5-10 | the result is never a partial map: it is either the complete id -> name map or the single `{current space id: 'Default space'}` entry; with no key missing it is the complete map; only non-KeyError exceptions escape |
| `MainScript.MissingTableFallsBack` | main.py:7-10 | a response without `recordMap`, or a `recordMap` without `space`, gives exactly the default entry |
| `MainScript.MissingNameFallsBack` | main.py:8-10 | when the first unreadable space record lacks `value` or `name`, the result is exactly the default entry |
| `MainScript.WrongShapePropagates` | main.py:6-10 | when the first unreadable space record fails with `TypeError`, that exception propagates instead of the fallback |
| `MainScript.TableNotDictPropagates` | main.py:7-9 | a space table that is not a dict raises `AttributeError` from `.items()`, which the `except KeyError` does not catch |
| `MainScript.GetTrash` | main.py:33-35 | for a `results` list, the ids of its blocks in the order the results came, failing exactly when one lacks an `id`; a missing `results` propagates; an empty dict or string gives `[]`, anything else that is not a list raises `TypeError` |
| `MainScript.ChunksAgree` | main.py:38-41 | `chunks(lst, n)` yields the same chunks as `chunk_iterator(lst, n)` |
| `MainScript.ChunksPartition` | main.py:38-41 | the chunks concatenate to the list, each has between 1 and n elements, only the last may be shorter, and there are ceil(len / n) of them |
| `MainScript.DeletePermanently` | main.py:44-50 | the loop's log is the deletion log of the chunks of ten; the posted batches concatenate to the id list, hold at most ten ids each and number ceil(len / 10); a failing chunk does not stop the loop |

## Left out

- The Notion client: its construction from a token, `client.post` and `.json()`. Each reading function takes the decoded body instead. Transport errors and decoding errors are not represented.
- `NotionClearTrash.ChunkIterator`: requires a positive chunk size. In Python a size of 0 makes `range` raise `ValueError`, and a negative size yields no chunks at all. Every caller passes 10, the default (`DefaultChunkSize`).
- `MainScript.Chunks`: requires a positive n, for the same reason.
- `NotionClearTrash.DeletePermanently`: requires a positive chunk size. With `chunk_size=0` the `ValueError` from `range` is raised by the `for` header, outside the `try`, so nothing catches it; the model does not represent that escape.
- The `main` functions and the `__main__` block: the token prompt, the loop over spaces and the final message. The per-space loop only sequences the three operations.
- The printed text of each outcome, including the exception message. The log keeps only the Deleted / Couldn't-delete distinction.
- The literal search payload (filters, sort, limit 1000, source) and the endpoint names of the search and load calls. They are constant data with no logic.
- `MainScript.GetSpaceDict`: `currentSpaceId` is a parameter standing for `client.current_space.id`. Reading that property can itself fail, and that failure is not modelled.
- JSON numbers are integers only. Floats never reach the code's logic.
- A JSON object that repeats a key: its records are visited once per occurrence. A Python dict would visit the key once, with its last value. Lookup keeps the last value, as the decoder does.
- Laziness of the generators: the chunks are computed as a sequence before the loop runs. The loop posts and logs them in the same order either way.
