# Elastic log handler — buffering and delivery model

A Dafny model of the core of `python-elastic-log-handler`. This is a Python
`logging.Handler` that buffers log records as Elasticsearch bulk lines and ships
them in batches to a `_bulk` endpoint. The model covers:

- the buffer that `add_to_buffer` appends to: one action line plus one document line per record;
- the drain's copy-and-reset of that buffer;
- the two drain triggers: a timeout trigger and a count trigger;
- construction of the bulk endpoint, and rejection of a missing URL;
- the delivery policy of `drain_messages`: POST, classify the status code, back off and retry, and fall back to a backup file.

Every operation is a pure function over immutable values. The network is a
sequence of `Response`s, one per POST: a status code or an exception raised by
`requests.post`. Attempts past the end of that sequence read as a connection
failure. A drain returns a trace of side effects. The events are:

- `Post(body)`;
- `Sleep(seconds)`;
- `Backup(lines)`.

The trace also records how the retry loop ended.

Modules, one per component of `elastic_logger/handler.py`:

- `BulkText` (`bulk_text.dfy`): the request body and backup text, plus a decoder for the body.
- `LogBuffer` (`log_buffer.dfy`): the action line, the append, the swap, and runs of appends and swaps.
- `Shipper` (`shipper.dfy`): the retry loop `Attempt` and the whole delivery `Drain`, with the trace observations.
- `RetryScenarios` (`retry_scenarios.dfy`): consequences of `Drain`'s contract for particular response patterns.
- `Handler` (`handler.dfy`): construction, `emit`, `drain_messages`, the two triggers, and runs that interleave them.
- `Segments` (`segments.dfy`): the first occurrence of a character, and splitting at it, used for the body decoder and the endpoint's path.
- `Wrappers` (`wrappers.dfy`): `Option` and `Result`.

Behaviours of the code a reader may not expect, all modelled as written:

- **A 401 still writes a backup.** The loop breaks with `success_in_send` still false, so the final backup runs. The batch is not dropped without a trace.
- **A 400 writes a backup and then keeps retrying.** Repeated 400s therefore write several backups. A later 200 does not undo them.
- **A connection error is not retried.** The exception from `requests.post` leaves `drain_messages`. The batch has already been swapped out, and it is not backed up.
- **The back-off is in seconds.** The code passes 2000, 4000, 8000 and 16000 to `time.sleep`, which takes seconds. The model keeps these numbers as written.
- **The default `log_type` is `"python"`.**
- **A `None` index or type name is accepted at construction.** It is rendered as `None` in the endpoint. The first `add_to_buffer` then raises `TypeError` when it concatenates the name into the action line.

## Model

| member | source | states |
|---|---|---|
| `Shipper.Drain` | elastic_logger/handler.py:154-181 | The whole delivery policy for any responses. The number of POSTs is exactly the position of the first response that is not a retryable status, capped at 4. The outcome is read off that last response. Event by event, the trace is each attempt's reference events in attempt order, followed by the final backup. An attempt's reference events are its POST, then a backup if the status was 400, then a sleep of 2000·2^j unless the response ended the loop. So an exhausted run sleeps after its fourth attempt too, and the sleeps are a prefix of 2000, 4000, 8000, 16000. Backups equal the number of 400s seen, plus one final backup after a 401 or after exhausting the attempts. Every POST sends the batch body and every backup saves the batch. |
| `Shipper.AttemptOrder` | elastic_logger/handler.py:159-176 | From any attempt j on, the loop's trace equals, event for event, the reference events of each attempt it makes, in attempt order: POST, a backup if 400, then the sleep of 2000·2^j if the response was retryable. |
| `Shipper.AttemptCount` | elastic_logger/handler.py:159-176 | From any attempt on, the loop makes exactly as many POSTs as the responses fix: it stops at the first non-retryable response or at the fourth attempt. |
| `Shipper.AttemptExit` | elastic_logger/handler.py:162-176 | How the loop ends is read off the response to its last attempt: 200 is success, 401 is the authorization break, an exception propagates, and any other status means the attempts ran out. |
| `Shipper.AttemptSleepCount` | elastic_logger/handler.py:162-176 | The number of sleeps equals the number of POSTs when the attempts ran out, and one fewer otherwise. Where each sleep falls is stated by `Shipper.AttemptOrder`. |
| `Shipper.AttemptSleepsDouble` | elastic_logger/handler.py:172-173 | The j-th sleep of the loop lasts the starting delay times 2^j. |
| `Shipper.AttemptBackups` | elastic_logger/handler.py:163-166 | Inside the loop, one backup is written per 400 response consumed, and no other backup. |
| `Shipper.AttemptCarries` | elastic_logger/handler.py:160-166 | Every POST of the loop sends the batch body, and every backup saves the batch unchanged. |
| `RetryScenarios.FirstSuccessStops` | elastic_logger/handler.py:159-181 | If the first 200 is at attempt k and everything before it was retryable, the result is k+1 POSTs, the first k sleeps of the schedule, and success. No final backup is written; only the earlier 400s leave backups. |
| `RetryScenarios.UnauthorizedStops` | elastic_logger/handler.py:168-181 | A 401 at attempt k ends the loop with k+1 POSTs and only the k earlier sleeps. The trace ends with that POST followed by one backup of the whole batch. |
| `RetryScenarios.UnauthorizedTail` | elastic_logger/handler.py:168-170 | When the loop ends on a 401, its last event is the POST that received it; no sleep comes after. |
| `RetryScenarios.ExhaustedRetries` | elastic_logger/handler.py:154-181 | Four retryable responses give four POSTs and the full schedule 2000, 4000, 8000, 16000. Backups are one per 400 plus one final backup of the batch, and that backup is the last event. |
| `RetryScenarios.TwoFailuresThenSuccess` | elastic_logger/handler.py:154-181 | Responses 503, 503, 200 give three POSTs, sleeps of 2000 then 4000, and no backup. |
| `RetryScenarios.SingleUnauthorized` | elastic_logger/handler.py:168-181 | A lone 401 gives exactly one POST followed by one backup of the batch. |
| `RetryScenarios.BadRequestThenSuccess` | elastic_logger/handler.py:162-176 | A 400 followed by a 200 backs the batch up and sleeps, and then delivers it anyway. |
| `RetryScenarios.RepeatedBadRequests` | elastic_logger/handler.py:163-181 | Four 400s write five backups. |
| `BulkText.BodyIsTerminated` | elastic_logger/handler.py:161 | The POST body equals every batch line followed by its own newline. An empty batch sends a lone newline. |
| `BulkText.BodyRoundTrip` | elastic_logger/handler.py:161 | Splitting the body of a non-empty batch of single-line entries at newlines gives back the batch in order. The backup text is the body without its trailing newline. |
| `LogBuffer.Append` | elastic_logger/handler.py:98-101 | `add_to_buffer` succeeds exactly when the index and type names are present. The old contents remain as a prefix, followed by the action line and then the document. Length grows by exactly two, so it stays even. |
| `LogBuffer.SwapEmpty` | elastic_logger/handler.py:147-148 | The drain takes a batch equal, in order, to the buffer, and leaves the buffer empty. |
| `LogBuffer.FillThenSwap` | elastic_logger/handler.py:98-101 | N appends to an empty buffer give 2N lines, an action line before each document, with the documents in arrival order. The swap hands over exactly those lines. |
| `LogBuffer.NoLossAcrossSwaps` | elastic_logger/handler.py:141-151 | For any run of appends and swaps, the batches handed out followed by what is still buffered are exactly the pairs of all documents added, in order. No line is dropped or duplicated. |
| `LogBuffer.RunKeepsPairs` | elastic_logger/handler.py:98-101 | After any run of appends and swaps, the buffer and every batch handed out have even length: they hold whole action/document pairs. |
| `Handler.New` | elastic_logger/handler.py:26-39 | Construction fails exactly when the URL is missing or empty. Otherwise the settings are kept, the buffer is empty, and the endpoint is the URL, the index and the type (`None` rendered as `None`) separated by `/`, followed by `/_bulk`. The defaults are 100 lines, 10 seconds and `"python"`. |
| `Handler.NewThenEmit` | elastic_logger/handler.py:33-101 | Construction and emit agree on the names. For names without `/`, splitting the endpoint at `/` gives the URL's pieces, then the index, the type and `_bulk`. An emit on the new handler succeeds exactly when both names are present, and then writes an action line naming that same index and type, followed by the document. A handler built with a `None` name is created, but every emit on it fails. |
| `Handler.Emit` | elastic_logger/handler.py:187-188 | An emit appends the action line for the configured index and type, then the document. It fails when either name is `None`, and the settings are unchanged. |
| `Handler.DrainMessages` | elastic_logger/handler.py:141-185 | After a drain the buffer is empty and the settings are unchanged. One to four POSTs are made, all carrying the swapped-out batch, and the delivery is `Shipper.Drain` of that batch. A drain whose POST raised writes no final backup. |
| `Handler.TimeoutTick` | elastic_logger/handler.py:53-58 | The timeout trigger drains if and only if the buffer is non-empty. Otherwise it leaves the handler unchanged. When it drains, the delivery carries exactly the pre-tick buffer, and the buffer ends empty. |
| `Handler.CountWake` | elastic_logger/handler.py:83-85 | The count trigger drains if and only if the buffer length is at least `logs_drain_count`. Otherwise it leaves the handler unchanged. When it drains, the delivery carries exactly the pre-wake buffer, and the buffer ends empty. |
| `Handler.OperateSucceeds` | elastic_logger/handler.py:53-105 | With both names present, every step of any interleaving of emits, timeout wake-ups and count wake-ups succeeds and keeps the settings. |
| `Handler.NoLossThroughTriggers` | elastic_logger/handler.py:53-151 | Start from an empty buffer with both names present, and run any interleaving of emits and wake-ups of either trigger. The batches the drains took, followed by what is still buffered, are exactly the action/document pairs of every logged record, in order. Nothing is dropped or duplicated. |
| `Handler.RunKeepsWholePairs` | elastic_logger/handler.py:53-101 | In any such run the buffer keeps even length, and every batch taken has its own delivery. |
| `Handler.TriggersDeliverTheirBatch` | elastic_logger/handler.py:53-161 | In any such run, each drain's delivery POSTs and backs up exactly the batch that drain took. |
| `Handler.EmitThenWakeSteady` | elastic_logger/handler.py:78-85 | If every emit is followed by the count trigger's check, the buffer keeps whole pairs and stays below the threshold. |
| `Handler.TimeoutOnEmptyIsQuiet` | elastic_logger/handler.py:57 | A timeout wake-up on an empty buffer makes no network call. |
| `Handler.CountWakeDrainsEmptyBuffer` | elastic_logger/handler.py:84 | With a threshold of zero or less, the count trigger drains an empty buffer and POSTs a lone newline. |
| `Handler.ConnectionFailureLosesBatch` | elastic_logger/handler.py:147-161 | If the first POST raises, the trace is that one POST. The outcome is `Raised`, nothing is backed up, and the buffer is already empty, so the batch is lost. |

## Left out

- Threads, the `Event` gate, the `Condition` and the drain `Lock` (lines 8, 17-24, 41-51, 60-67, 70-88, 142-151, 183-185). Appends, swaps and trigger wake-ups are modelled as sequential steps, so interleavings of producers with a swap are not modelled. Main-thread liveness polling and shutdown of the trigger threads are also left out.
- The trigger loops themselves (`while True`, `sleep(logs_drain_timeout)`, `wait()`). Each wake-up is one step: `Handler.TimeoutTick` or `Handler.CountWake`. `Handler.Operate` runs any sequence of them interleaved with emits. The timing of `sleep(logs_drain_timeout)` is not modelled. Neither is the pairing of `wait()` with `notify()`, so a count wake-up may occur with no append before it. A drain that raises kills the trigger thread that called it; this is not modelled either.
- The timeout trigger's length check (line 57) runs outside `drain_lock`. A timeout wake-up that saw a non-empty buffer can wait behind a count-triggered drain. It then swaps out an empty buffer and POSTs a lone newline. Each model step checks and drains atomically, so this interleaving cannot occur. `Handler.DrainMessages` on an empty buffer gives the delivery it would make.
- `requests.post`, headers and Basic credentials. The network is a sequence of responses, and the username and password are only stored.
- `time.sleep`. It is recorded as a `Sleep` event with the value passed.
- `backup_logs` file handling. The file name comes from `datetime.now()`. Append mode means two backups in the same second share a file. The `print` notices are also dropped. A backup is recorded as a `Backup(lines)` event, and `BulkText.BackupText` gives the text it writes.
- `format_message` and `handle_exceptions`. They call `traceback.format_exception`, `datetime.utcnow` and `json.dumps`. The serialized document is an opaque string passed to `Handler.Emit`.
- The buffer's initial value. `logs` is a class attribute shared by all handler instances until the first drain rebinds it. The model has one handler whose buffer starts empty.
- `url` is modelled as an optional string. Other truthy or falsy Python values are not modelled.
- `setup.py` is packaging metadata and is not part of this model.
