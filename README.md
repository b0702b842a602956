# HydraMesh head controller: wire codec, worker registry and task routing

This project models the coordination core of the HydraMesh head, the router
that sits between inference clients and a mesh of UDP workers, and proves
properties of the model. It has three parts.

- **The DCF wire codec** (`dcf_common.dfy`, `big_endian.dfy`). A message is
  a 17-byte big-endian header (`>B I Q I`: type u8, sequence u32, timestamp
  u64, payload length u32) followed by the payload.
  - `Serialize` fails exactly when a field does not fit its width, which is
    where `struct.pack` raises.
  - `Deserialize` rejects input shorter than the header, or shorter than
    the header plus its declared payload length, and nothing else.
  - Round trips are proved in both directions. Bytes after the declared
    payload are ignored.
- **The worker registry and the request tracker** (`registry.dfy`,
  `requests.dfy`). These are classes whose methods update their fields in
  place, as the Python objects do.
  - The registry's dictionary is a `map` with a `seq` for its insertion
    order. Python iterates `dict.values()` in that order, so the order
    decides which worker `get_worker` picks.
  - Selection is specified by the function `Pick`: the first healthy idle
    worker in registration order, else the next healthy worker after the
    round-robin cursor, busy or not.
  - Pruning, task assignment and completion are each specified by a function
    on the old state. Registry well-formedness is kept as an invariant: the
    order lists every key exactly once.
  - The tracker is a `map` from sequence number to pending request, bounded
    by `maxPending`. Expiry sweeps remove exactly the expired entries.
- **The head's handlers** (`head.dfy`, `py_int.dfy`). Heartbeat, task,
  result and worker-error handling, and one maintenance pass.
  - Sockets are replaced by an outbox: `sent` records every datagram the
    head hands to its client socket or worker bus.
  - The heartbeat's `int(payload.decode('utf-8'))` is modelled byte for byte
    for ASCII payloads. It skips the whitespace `int()` skips in ASCII text
    (tab, line feed, vertical tab, form feed, carriage return and space, but
    not the separators 0x1C-0x1F), accepts one sign and underscore-grouped
    digits, and enforces the default 4300-digit limit.
  - `scenarios.dfy` runs concrete message sequences through a fresh
    controller to exhibit routing behaviour end to end.

The clock is a `now: real` parameter, one value per operation. Timeouts and
the capacity are constructor parameters, as the environment-derived
constants `WORKER_TIMEOUT`, `REQUEST_TIMEOUT` and `MAX_PENDING_REQUESTS` are
in the source.

Where the protocol's design description and the code differ, the model
follows the code:

- the header is 17 bytes with no version byte;
- the type byte is not validated on decode;
- trailing bytes are ignored;
- the tracker is keyed by the bare sequence number, so two clients that use
  the same number collide and the later one wins;
- nothing is retried or reassigned;
- an expired request is dropped without any ERROR to its client, and its
  worker stays marked busy;
- pruning a worker does not fail its in-flight task;
- a busy worker can be handed a second task, which overwrites its current
  task.

## Model

| member | source | states |
|---|---|---|
| BigEndian.DecodeEncode | dcf_common.py:8 | unpacking a big-endian field of `width` bytes gives back the value packed into it |
| BigEndian.EncodeDecode | dcf_common.py:8 | every byte string is the packing of its own value, so unpack never loses information |
| BigEndian.Encode | dcf_common.py:8 | packs `x` into exactly `width` bytes, most significant first |
| BigEndian.Decode | dcf_common.py:8 | unpacks a big-endian field; the value is below 256 to the number of bytes |
| DcfCommon.Header | dcf_common.py:30-36 | `struct.pack('>B I Q I', …)` of the type, sequence, timestamp and payload length: exactly 17 bytes |
| DcfCommon.Serialize | dcf_common.py:28-37 | fails exactly when a header field is out of its `struct` range; otherwise the datagram is 17 header bytes followed by the payload |
| DcfCommon.Deserialize | dcf_common.py:40-52 | rejects data shorter than the header; a decoded message's fields fit their widths, its type is byte 0, and its payload is the bytes right after the header |
| DcfCommon.HeaderLayout | dcf_common.py:8-9 | byte 0 is the type; bytes 1-4, 5-12 and 13-16 are the sequence, timestamp and payload length, big-endian |
| DcfCommon.RoundTripWithTrailing | dcf_common.py:28-52 | a serialized message followed by any extra bytes deserializes to the same message |
| DcfCommon.RoundTrip | dcf_common.py:28-52 | `deserialize(serialize(m)) == m` for every message whose fields fit |
| DcfCommon.ReEncode | dcf_common.py:28-52 | whatever deserializes serializes back to its input, up to the end of the declared payload |
| DcfCommon.HeaderOfDecoded | dcf_common.py:43-46 | the header of a decoded message is the datagram's own first 17 bytes |
| DcfCommon.RejectsExactlyShortInput | dcf_common.py:40-52 | decoding fails if and only if the data is shorter than the header or than the header plus the declared payload length; every type byte is accepted |
| Registry.NewWorker | head_controller.py:84 | a worker first seen at `now`: heartbeat `now`, zero counters, no current task |
| Registry.IsHealthy | head_controller.py:56-57 | healthy while the heartbeat age is strictly below the timeout |
| Registry.IsBusy | head_controller.py:59-60 | busy exactly while the worker has a current task |
| Registry.Matching | head_controller.py:98 | the list comprehension over workers in dictionary order; no longer than its input and drawn from it |
| Registry.StaleStaysStale | head_controller.py:56-57 | health depends only on heartbeat age, so a stale worker stays stale as time passes |
| Registry.MatchingMembers | head_controller.py:98 | a comprehension over the workers keeps exactly those that pass its test |
| Registry.MatchingTwice | head_controller.py:98-105 | filtering the healthy list for idle workers is filtering once for healthy-and-idle |
| Registry.HealthyPlusStale | head_controller.py:98 | every registered worker is either healthy or stale, never both |
| Registry.FirstMatch | head_controller.py:105-107 | the first element of a comprehension is the earliest worker in registration order that passes |
| Registry.Pick | head_controller.py:90-111 | no worker is returned exactly when no registered worker is healthy; a returned worker is registered and healthy; the cursor moves only when a worker is returned |
| Registry.PickPrefersFirstIdle | head_controller.py:104-107 | with a healthy idle worker present, the pick is the first healthy idle worker in registration order and the cursor does not move |
| Registry.PickMayChooseBusy | head_controller.py:104-111 | when every healthy worker is busy, the fallback hands out a busy worker and advances the cursor by one modulo the healthy count |
| Registry.PickAdvances | head_controller.py:109-111 | one round-robin step hands out the healthy worker after the cursor and makes it the cursor |
| Registry.PicksRotate | head_controller.py:109-111 | on an unchanged registry with no idle healthy worker, the j-th of k successive picks is the healthy worker j+1 places after the cursor |
| Registry.RoundRobinReachesEveryone | head_controller.py:109-111 | as many successive picks as there are healthy workers hand out every healthy worker, so none starves |
| Registry.Refreshed | head_controller.py:79-88 | after a heartbeat the address is registered with the new heartbeat time; an existing worker keeps its counters and task; a new one starts idle with zero counters; others are unchanged |
| Registry.Enrolled | head_controller.py:82-84 | a new address joins the end of the registration order; a known one leaves the order unchanged |
| Registry.Assigned | head_controller.py:113-117 | a registered worker becomes busy with the sequence and nothing else about it changes; an unknown address changes nothing |
| Registry.Completed | head_controller.py:119-131 | a registered worker becomes idle and exactly one of its completed or failed counters goes up by one, by outcome; an unknown address changes nothing |
| Registry.Pruned | head_controller.py:137-141 | what a prune keeps: exactly the healthy workers, each entry untouched |
| Registry.PruneCommutesWithAssign | head_controller.py:463-478 | a prune between `get_worker` and `assign_task` leaves the same workers as a prune after `assign_task` |
| Registry.PruneCommutesWithComplete | head_controller.py:399-407 | a prune between the request's removal and `complete_task` leaves the same workers as a prune after `complete_task` |
| Registry.PrunedWorkers | head_controller.py:133-142 | deleting the stale workers leaves exactly the healthy ones, their entries untouched |
| Registry.PrunedState | head_controller.py:133-142 | after the deletions the registry is still well formed, its order is the healthy workers in registration order, and the count returned is the number of entries removed |
| Registry.CountMatching | head_controller.py:144-150 | the length of a comprehension over the registry is the number of registered workers that pass its test |
| Registry.WorkerRegistry.constructor | head_controller.py:73-77 | the registry starts empty with the cursor at zero |
| Registry.WorkerRegistry.Collect | head_controller.py:98 | the list comprehension loop yields the workers that pass the test, in order |
| Registry.WorkerRegistry.Register | head_controller.py:79-88 | returns true exactly when the address was new; the new state is `Refreshed` and `Enrolled` of the old, and stays well formed |
| Registry.WorkerRegistry.GetWorker | head_controller.py:90-111 | the worker returned and the new cursor are those `Pick` gives on the old state |
| Registry.WorkerRegistry.AssignTask | head_controller.py:113-117 | the new workers map is `Assigned` of the old |
| Registry.WorkerRegistry.CompleteTask | head_controller.py:119-131 | the new workers map is `Completed` of the old |
| Registry.WorkerRegistry.DeleteAll | head_controller.py:139-141 | the deletion loop removes exactly the listed addresses from the map and from the order |
| Registry.WorkerRegistry.PruneStale | head_controller.py:133-142 | removes exactly the stale workers, keeps the healthy ones untouched and in order, keeps the registry well formed, and returns how many were removed |
| Registry.WorkerRegistry.GetStats | head_controller.py:144-150 | the total, healthy and healthy-busy counts are the numbers of registered workers in each class, and busy <= healthy <= total |
| Requests.IsExpired | head_controller.py:178-179 | expired once the request's age is strictly above the timeout |
| Requests.Unexpired | head_controller.py:215-223 | a sweep keeps exactly the requests that are not expired, each unchanged |
| Requests.ExpiredStaysExpired | head_controller.py:178-179 | a request expired at some time stays expired at every later time |
| Requests.SweepIdempotent | head_controller.py:215-223 | sweeping again at the same time removes nothing more |
| Requests.SweptIsUnexpired | head_controller.py:219-222 | deleting every key the comprehension marks as expired leaves exactly the unexpired requests |
| Requests.SweepCommutesWithComplete | head_controller.py:399-407 | an expiry sweep between a request's removal and the rest of the handler leaves the same requests as a sweep after it |
| Requests.SweepCommutesWithAdd | head_controller.py:472-478 | an expiry sweep before a successful `add` of a fresh request leaves the same requests as a sweep after it |
| Requests.RequestTracker.constructor | head_controller.py:189-193 | the tracker starts empty with the given capacity |
| Requests.RequestTracker.Add | head_controller.py:195-208 | accepted exactly when fewer than `maxPending` requests are held; if accepted, the request is stored under its sequence, replacing any earlier one; if refused, nothing changes; the capacity bound is kept |
| Requests.RequestTracker.Complete | head_controller.py:210-213 | returns the request under the sequence, or none if absent, and removes it |
| Requests.RequestTracker.CleanupExpired | head_controller.py:215-223 | leaves exactly the unexpired requests and returns how many were removed |
| PyInt.ParseInt | head_controller.py:391 | a successful parse comes from ASCII text containing at least one digit; whitespace alone never parses |
| PyInt.ParseStripped | head_controller.py:391 | stripped text that parses ends in a digit |
| PyInt.DecimalValue | head_controller.py:391 | the decimal text of `n` holds only digits and reads back as `n` |
| PyInt.ParsesDecimal | head_controller.py:391 | `int(str(n))` is `n`, with any whitespace padding on either side |
| PyInt.ParsesDigits | head_controller.py:391 | whitespace-padded plain digits, within the digit limit, parse to their value |
| PyInt.ParsesNegativeDigits | head_controller.py:391 | a minus sign before padded digits negates their value |
| PyInt.ParseUnsigned | head_controller.py:391 | plain digits within the digit limit parse to their value |
| PyInt.ParseNegative | head_controller.py:391 | a minus sign followed by digits parses to the negated value |
| PyInt.UnsignedPadded | head_controller.py:391 | whitespace around a digit run does not change what it parses to |
| PyInt.NegativePadded | head_controller.py:391 | whitespace around a negative number does not change what it parses to |
| PyInt.StripPadded | head_controller.py:391 | stripping removes exactly the padding of `int()` whitespace (0x09-0x0D and space) |
| PyInt.ParseOfStrip | head_controller.py:391 | on ASCII text with something besides whitespace, the parse is that of the stripped text |
| PyInt.UnderscoreIgnored | head_controller.py:391 | an underscore between digits does not change the value |
| PyInt.RejectsDoubledUnderscore | head_controller.py:391 | two adjacent underscores anywhere make the text fail to parse |
| PyInt.SeparatorNotSkipped | head_controller.py:391 | a separator byte 0x1C-0x1F in front of the digits is not skipped, so the text fails to parse |
| PyInt.PortText | head_controller.py:390-392 | a port number written in decimal parses back to that port |
| Head.HeartbeatAddr | head_controller.py:390-391 | a heartbeat names a worker exactly when its payload parses as an integer; the worker is the sender's host at that port |
| Head.HeadController.constructor | head_controller.py:302-304 | the head starts with an empty registry, an empty tracker and nothing sent |
| Head.HeadController.HandleHeartbeat | head_controller.py:388-395 | a payload that parses registers or refreshes the announced worker; any other payload changes nothing |
| Head.HeadController.HandleTask | head_controller.py:461-486 | with no healthy worker, NO_WORKERS goes to the client and nothing is tracked; with the tracker full, WORKER_BUSY goes to the client and no worker is marked; otherwise the request is tracked under its sequence, the picked worker is marked busy with it, and the task goes to that worker |
| Head.HeadController.HandleResult | head_controller.py:397-420 | the pending request under the sequence is removed; if it existed, its worker is freed and credited with a success and the payload goes to its client; otherwise nothing else changes |
| Head.HeadController.HandleWorkerError | head_controller.py:449-459 | the pending request is removed; if it existed, its worker is freed and charged a failure and the worker's ERROR message is relayed unchanged to the client; otherwise nothing else changes |
| Head.HeadController.Maintain | head_controller.py:500-509 | one maintenance pass leaves only the healthy workers, in order, and only the unexpired requests, and reports how many of each were removed |
| Scenarios.NormalPath | head_controller.py:461-486 | a task goes to the only registered worker, and its result reaches the client, credits the worker and frees it |
| Scenarios.NoWorkersAvailable | head_controller.py:465-469 | with no registered worker the client gets a NO_WORKERS error and nothing is tracked |
| Scenarios.AtCapacity | head_controller.py:472-475 | with the tracker full the client gets WORKER_BUSY and the worker keeps its first task |
| Scenarios.BusyWorkerSecondTask | head_controller.py:104-117 | the busy worker is handed a second task, and the first task's result marks it idle while the second is still pending |
| Scenarios.SequenceCollision | head_controller.py:195-208 | two clients using one sequence number: the second replaces the first, and the only result goes to the second client |
| Scenarios.ExpiredRequestDropsResult | head_controller.py:215-223 | an expired request is dropped without notice, its late result is ignored, and its worker stays busy |

## Left out

- Sockets, `recv`/`send_chunked`, the polling loops `_run`, `_process_internal` and `_process_client`, and the 5-second sleep. Sends become the `sent` outbox, and the dispatch by message type is left to the caller of each handler.
- `_handle_chunk`, `ChunkAssembler`, `parse_chunk` and the stale-chunk sweep of the maintenance loop. They are defined in a version of `dcf_common` that is not part of this model.
- `DCFMessage.task`, `DCFMessage.result`, `DCFMessage.error` and the `ErrorCode` values. They are not part of this model either, so outgoing messages are kept abstract as `Outgoing`.
- `NodeMetrics`, latency measurement and `avg_latency_ms`. These are floating point and feed no routing decision.
- Registry.WorkerRegistry.CompleteTask: does not update `avg_latency_ms`, because that is a float rolling average that nothing reads back.
- Registry.WorkerRegistry.GetStats: returns only the three counts; the per-worker JSON list and its rounding are left out.
- The HTTP health server, `_handle_health_request`, JSON encoding and the tracker's `get_stats`.
- Threads and locks. Each handler is modelled as one atomic step. In the source the handlers hold no lock, and `_handle_task` makes three separately locked calls (lines 463, 472 and 478) between which the maintenance thread can prune and sweep. The commutation lemmas show that such an interleaved prune or sweep ends in the same state as one run after the handler. The exception is a sweep that frees capacity just before `add`: that interleaving can admit a task the atomic model would refuse, and it is not modelled.
- The clock: the source calls `time.time()` once per worker in `is_healthy` and once per request in `is_expired`, so one prune, sweep or `get_worker` sees slightly different times. The `now` that `get_worker` assigns at line 97 is never used. The model uses a single exact `now: real` for each operation.
- PyInt.ParseInt: a payload with any byte above 0x7F is rejected, whereas Python's `int()` also accepts non-ASCII Unicode digits and whitespace.
- `worker_node.py`, `webui.py` and the inference scripts. They are not part of this model.
