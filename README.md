# Log aggregator ingestion-dedup pipeline, modelled in Dafny

This project models the core of a small publish/subscribe log aggregator.
Producers publish log events, one at a time or in batches. The events go onto
an in-process FIFO queue. A single consumer takes them off one at a time and
runs each through a SQLite table whose primary key is `(topic, event_id)`. An
insert into that table succeeds only for an identity key it has not seen
before. Events that get in are appended to an in-memory projection: the
ordered list of unique events, the `unique_processed` and `duplicate_dropped`
counters, and the set of topics seen. At startup the projection is rebuilt
from the table, so the unique count and the topic set survive a restart. The
`received` and `duplicate_dropped` counters do not survive it.

Files:

- `events.dfy` (module `Events`): the `Event` record (topic, event id,
  timestamp, source, payload). It also holds the identity key `Key`, JSON
  payload values, and the helpers `TopicsOf`, `KeysOfEvents` and `IsSubseq`
  (order-preserving subsequence).
- `store.dfy` (module `Store`): the dedup table of `src/database.py`. It
  covers the row layout (`Row`, with `Cell` for the nullable encoded text
  columns), row encoding and decoding, and the `DedupStore` class with
  `Setup`, `Insert` and `LoadAll`.
- `pipeline.dfy` (module `Pipeline`): the global state of `src/main.py` as
  the class `Aggregator`. It has the consumer turn `ProcessOne`, the queue
  drain `Drain`, the startup rehydration `Startup`, `Publish` and `Stats`.
  The read-path filter `EventsByTopic` is a function. `AdmitAll` specifies
  what a drain admits. `Restart` composes a restart, and `BatchScenario` runs
  the batch scenario from the tests.

Main invariants:

- `DedupStore.Valid`: the table never holds two rows with the same key
  (`KeysUnique`). `Insert` preserves this, so it holds after any sequence of
  inserts.
- `Aggregator.Consistent`: `unique_processed` equals the length of the unique
  list, and `topics` is the set of that list's topics. Every received event
  is also either still queued or counted exactly once, as unique or as
  dropped. `Startup` from the fresh module state establishes this, and
  `ProcessOne`, `Drain` and `Publish` preserve it.
- `Aggregator.Valid`: after a successful rehydration, the unique list always
  equals the events that a load of the table at the startup's clock reading
  would return.

Environment inputs are parameters:

- the store error of an insert (`failure`);
- a failed read at startup (`readFailure`);
- the clock reading used for rows without a timestamp (`now`).

## Model

| member | source | states |
|---|---|---|
| Store.DecodeRow | src/database.py:101-118 | A row yields an event exactly when its source is not NULL and its payload and timestamp decode. The event keeps the row's topic, event id and source. A NULL or empty payload becomes the empty map; a stored payload is kept. A stored timestamp is kept, and a NULL or empty one becomes the clock reading `now`. |
| Store.RowRoundTrip | src/database.py:61-67 | The row an insert writes loads back as the very same event: topic, event id, timestamp, source and payload. |
| Store.KeysOfAppend | src/database.py:64-70 | A successful insert adds exactly the inserted event's key to the stored key set. |
| Store.KeysUniqueAppend | src/database.py:26-34 | Appending a row whose key is new keeps the primary-key constraint. |
| Store.DecodeAllAppend | src/database.py:101-115 | Loading a table made of two blocks of rows gives the first block's events followed by the second's. |
| Store.DecodeAllEncodeAll | src/database.py:61-70 | Events written by inserts load back unchanged and in insertion order. |
| Store.DecodeAllOrder | src/database.py:98-115 | The keys of the loaded events are an order-preserving subsequence of the rows' keys. |
| Store.DecodeAllComplete | src/database.py:101-118 | Every row that parses contributes its event to the load. Only rows that fail to parse are skipped. |
| Store.DecodeAllSound | src/database.py:101-115 | Every loaded event is the decoding of some stored row. |
| Store.DecodeAllLength | src/database.py:101-118 | A load returns at most one event per row. It returns exactly one per row if and only if every row parses. |
| Store.DecodeAllClockIndependent | src/database.py:111 | Two loads of the same table at different clock readings agree on the count, the topics and the keys. |
| Store.DedupStore.Open | src/database.py:13-15 | Opening the store file gives a store whose state is what an earlier run left behind. |
| Store.DedupStore.Setup | src/database.py:17-48 | Creates the table if it is missing and keeps existing rows, so repeating it changes nothing. |
| Store.DedupStore.Insert | src/database.py:50-81 | Returns true if and only if the table exists, no other error occurs and the key was absent. In that case exactly the event's row is appended. Otherwise nothing changes. The primary-key constraint is kept. |
| Store.DedupStore.LoadAll | src/database.py:84-129 | Returns every parseable row's event in admission order. A missing table or a failed read gives the empty list. |
| Pipeline.AdmitAllFresh | src/main.py:38-47 | Each admitted key is new to the store and distinct from every other key admitted in the same drain, so there is at most one admission per identity. |
| Pipeline.AdmitAllOrder | src/main.py:35-44 | Admitted events are an order-preserving subsequence of the queue (FIFO). |
| Pipeline.AdmitAllCount | src/main.py:35-49 | Take a ready store with no store errors. The number of admissions equals the number of distinct new keys among the drained events, and afterwards every such key is stored. |
| Pipeline.AdmitAllDistinct | src/main.py:35-44 | With a ready store and no store errors, events with new, pairwise distinct keys are all admitted, in their queue order. |
| Pipeline.SecondCopyDropped | tests/test_main.py:113-130 | With no store errors, in a queue holding an event followed directly by a copy with the same key, only the first is admitted, whatever the copy's payload or timestamp. |
| Pipeline.FirstCopyAdmitted | src/main.py:35-44 | With a ready store and no store errors, the first event of any queue with a key new to the store is admitted, whatever copies come after it. |
| Pipeline.FirstCopyWins | src/main.py:35-44 | With a ready store and no store errors, first copy wins for any queue: the first event with a new key is admitted, and it is the only admitted event with that key, so a later copy never replaces it. |
| Pipeline.FilterTopicExact | src/main.py:129-130 | The filtered list is an order-preserving subsequence of the list and holds only events of the topic. It holds every event of the topic as many times as the list does. |
| Pipeline.EventsByTopic | src/main.py:126-131 | With no topic, or an empty one, the whole list is returned. Otherwise exactly the events of that topic are returned, in list order. |
| Pipeline.FilterTopicAppend | src/main.py:129-130 | Appending an event to the list extends the filtered view by that event when its topic matches. Otherwise the view is unchanged. |
| Pipeline.Aggregator.constructor | src/main.py:18-28 | The module starts with an empty queue and list, zero counters and no topics. |
| Pipeline.Aggregator.Startup | src/main.py:63-75 | Prepares the store, then appends the loaded events to the list. `unique_processed` becomes the number loaded and `topics` their distinct topics. `received`, `duplicate_dropped` and the queue are left as they were. The clock reading of the load is recorded for `Valid`. From the fresh state the projection is then consistent. |
| Pipeline.Aggregator.ProcessOne | src/main.py:36-49 | Dequeues the head and inserts it. A new key appends that event, adds 1 to `unique_processed` and adds its topic. A rejected insert adds 1 only to `duplicate_dropped`. The event is never re-queued, and consistency is preserved. |
| Pipeline.Aggregator.Drain | src/main.py:33-49 | Processes the whole queue in FIFO order. The list, counters, topics and rows grow by exactly what `AdmitAll` admits. `unique_processed + duplicate_dropped` grows by the queue length. |
| Pipeline.Aggregator.Publish | src/main.py:100-112 | Queues the batch in order and adds its length to `received`. A single event counts as a batch of one. The projection is untouched. |
| Pipeline.Aggregator.Stats | src/main.py:114-124 | On a consistent projection, the reported unique count is the length of the unique list and the reported topics are its topics. |
| Pipeline.Restart | src/main.py:63-75 | When the earlier startup began from the fresh state and both startups read the table without failure, a new process over the same store has the same unique count, topic set and admitted keys, with `received` and `duplicate_dropped` back at zero. The table's rows are left as they were. |
| Pipeline.BatchAdmitted | tests/test_main.py:186-210 | Draining b1, b2 and b1 again into an empty, ready store with no store errors admits exactly b1 and b2. |
| Pipeline.BatchScenario | tests/test_main.py:186-210 | On a fresh deployment, publishing and draining b1, b2 and b1 gives received 3, unique 2 and dropped 1. |

## Code and design notes

- One might expect a store error to reach the consumer's `except Exception`
  branch (src/main.py:54-59). In fact `check_and_insert_event` catches every
  exception itself and returns false.
  A store error therefore reaches the consumer as a plain false and is
  counted in `duplicate_dropped`. The model follows the code: `ProcessOne`
  counts a failed insert as dropped.
- Rehydration uses `extend`, not assignment (src/main.py:72). It therefore
  appends to whatever the list already holds. The counter and the topic set
  are overwritten. `Startup` models this literally, and the projection
  invariant is only promised from the fresh module state.
- First copy wins only when the first copy's insert succeeds. A store error
  on that insert writes nothing and counts the event as dropped, so a later
  copy with the same key is then admitted (`AdmitAll` with a failure on the
  first copy).
- An empty `topic` query parameter counts as absent (`if topic:`), so it
  returns the whole list.

## Left out

- HTTP routing, the 422 schema-validation path, and the pydantic defaults
  (random `event_id`, current-time `timestamp`) are transport, validation,
  randomness and clock reads. Events reach the model already built.
- SQLite connection handling, the SQL text, `os.makedirs` and the `PRAGMA`
  payload-column migration are I/O. Rows written before the migration appear
  only as rows whose payload cell is NULL.
- `setup_database` re-raising its error aborts startup, which is fatal.
  `Setup` is modelled only on its success path.
- A missing database file and a missing table are both represented by
  `DedupStore.present` being false. Both make inserts fail and loads return
  the empty list.
- JSON serialisation of the payload and ISO-8601 conversion of the timestamp
  are library calls. They are modelled as opaque round trips: a `Cell` holds
  either an encoded value or text that does not decode. JSON numbers are
  integers here, and floats are not modelled.
- Store.DecodeAll: one clock reading `now` fills every missing timestamp of
  a load, whereas the code reads the clock once per such row
  (src/database.py:111). Two rows without a timestamp may get different
  readings there and get the same one in the model.
- Ordering by `processed_at`, which has second resolution, is modelled as
  insertion order. The order of rows inserted in the same second is not
  modelled.
- asyncio is not modelled. This covers suspension in `queue.get()`
  (`ProcessOne` requires a non-empty queue, because the step only happens
  when an item is available), `task_done`/`join`, cancellation, the error
  branch with its one-second backoff, the five-second shutdown drain timeout
  and task spawning.
- Pipeline.Aggregator.Stats: `uptime_seconds` is left out (floats and
  wall-clock time). `topics_list` is returned as a set, because the order of
  `list(set)` is unspecified.
- Logging is not modelled.
- The load generator `tools/stress_test.py` is not part of this model.
