# Deterministic-replay core: a Dafny model

This project models the sequential core of a deterministic trace-and-replay
toolkit for distributed programs. The toolkit records each node's actions
(inputs, internal steps, outputs) as TLA+-typed JSON values, stores them in a
trace database, and replays them. The model covers five parts:

- **The echo server example** (`example/echo/echo_server.cpp`), module
  `EchoServer`. Its replay session pulls messages from a queue until it sees
  a stop message, an oversized payload or a closed queue. For each echoed
  message it is meant to record a receive action and then a reply action.
  As written, the first accepted message ends the session instead (see
  "## Findings"). The server records SERVER_START, and `main` checks its
  arguments.
- **The TLA+ typed-value decoder** (`src/action/tla_typed_value.rs`), module
  `TlaTypedValue`. It turns a `{kind, object}` JSON node into a plain value,
  recursing into tuples, sets, records and functions and substituting model
  constants.
- **The trace-database row readers** (`src/trace/to_action.rs`), module
  `ToAction`:
  - `read_actions` converts rows one at a time;
  - `read_action_batch` converts rows in batches;
  - `read_action_message` hands on actions then states;
  - `state_to_action` is gated on the database stage.
- **The action rendezvous table** (`src/dtm/action_reorder.rs`), module
  `ActionReorder`: a map from an action to its channel and reference count.
- **The DTM test player** (`src/dtm/test_dtm_player.rs`), module
  `TestDtmPlayer`:
  - one task's messages;
  - all tasks interleaved, followed by one stop per node;
  - the input stub's queue;
  - the history log and its check.

Module `Results` (`common.dfy`) holds the shared `Option`, `Error` and `Res`
types.

Errors propagated by `?` are `Err(e)`. A Rust panic (`unwrap` on `None`,
`assert!`, an empty `gen_range`) is `Err(Panic)`, which the core never
catches.

Functions stand in for the environment:

- A database query is the sequence of rows it yields.
- Callbacks are pure functions that return a `Call`: the effects they had, in
  order, and their result.
- The random number generator is a draw function.
- Which branch of a `select!` wins is a parameter.

The loops of the source are methods. Each one is proved equal to a
specification function, or proved to satisfy a predicate over its inputs.

## Model

| member | source | states |
|---|---|---|
| EchoServer.FirstHalt | example/echo/echo_server.cpp:51-61 | the position of the first stop or oversized message: every message before it is echoed, and the one at it ends the session |
| EchoServer.EchoTrace | example/echo/echo_server.cpp:62-85 | n echoed messages leave exactly 2n records |
| EchoServer.Session | example/echo/echo_server.cpp:35-94 | intended behaviour: the trace is `SessionTrace`. A null queue records nothing (NoQueue). Otherwise exactly the messages before the first halting one are echoed, one receive and one reply each, in pull order. The halting message is consumed and the reason is Stopped, Oversized or QueueClosed |
| EchoServer.SessionAsWritten | example/echo/echo_server.cpp:35-94 | the code as written: the session records nothing. A null queue ends it with NoQueue and an empty one with QueueClosed. Otherwise exactly one message is consumed, and the session ends Stopped, Oversized, or Threw when the message is accepted, because `value_to<std::string>` throws on the action object and the handler ends the session |
| EchoServer.EchoesLostAsWritten | example/echo/echo_server.cpp:62-84 | when the first message is accepted, the intended trace starts with its receive record and holds at least two records, which the session as written never makes |
| EchoServer.EchoTraceAt | example/echo/echo_server.cpp:62-85 | intended behaviour: the i-th echoed message leaves its receive record at 2i and its reply record at 2i+1, with the payload unchanged and the session's (local, remote) ids |
| EchoServer.EchoTraceAppend | example/echo/echo_server.cpp:42-89 | intended behaviour: each further accepted message appends exactly one receive/reply pair to the trace |
| EchoServer.EchoTracePairs | example/echo/echo_server.cpp:62-85 | every pair in an echo trace is a receive followed by a reply that carries the same payload under the same ids |
| EchoServer.SessionTraceAlternates | example/echo/echo_server.cpp:42-89 | intended behaviour: a session's trace has even length and alternates receive/reply pairs, each reply echoing its receive |
| EchoServer.HaltingFirstMessageRecordsNothing | example/echo/echo_server.cpp:51-61 | a stop or oversized first message ends the session before anything is recorded |
| EchoServer.LimitIsInclusive | example/echo/echo_server.cpp:59-61 | intended behaviour: a payload of exactly 1024 bytes is still echoed, because the limit test is strict |
| EchoServer.FirstHaltIgnoresSuffix | example/echo/echo_server.cpp:51-61 | messages queued after the halting one never influence where the session stops |
| EchoServer.SessionIgnoresSuffix | example/echo/echo_server.cpp:42-89 | intended behaviour: messages queued after the halting one leave the trace unchanged |
| EchoServer.SessionTraceExtends | example/echo/echo_server.cpp:42-89 | intended behaviour: appending an accepted message to a stream with no halting message extends the trace by exactly its pair |
| EchoServer.FirstHaltAllAccepted | example/echo/echo_server.cpp:51-61 | with no stop or oversized message the whole queue is consumed |
| EchoServer.ServerStartRecord | example/echo/echo_server.cpp:96-97 | `server` records an input SERVER_START action with the local id as both local and remote id |
| EchoServer.RunMain | example/echo/echo_server.cpp:110-126 | usage error with exit code 1 exactly when argc is not 3. Otherwise the port and id are the arguments reduced modulo 2^16 and 2^64, and the only record before serving is SERVER_START |
| EchoServer.HelloThenStop | example/echo/echo_server.cpp:42-89 | intended behaviour: "hello" followed by a stop message records one receive and one reply of "hello" and nothing for the stop |
| TlaTypedValue.FamilyOf | src/action/tla_typed_value.rs:17-52 | a kind code falls to the default arm exactly when it matches none of the known kind constants |
| TlaTypedValue.Find | src/action/tla_typed_value.rs:14-15 | a key lookup yields the first member with that key, or reports absence when no member has it |
| TlaTypedValue.MalformedNodeFails | src/action/tla_typed_value.rs:13-16 | a node that is not an object with a u64 `kind` and an `object` member fails with the `None` error |
| TlaTypedValue.UnknownKindFails | src/action/tla_typed_value.rs:50-52 | an unknown kind fails with the `None` error |
| TlaTypedValue.ScalarsPassThrough | src/action/tla_typed_value.rs:18-22 | bool, int and real values are returned unchanged |
| TlaTypedValue.ConstantsSubstituted | src/action/tla_typed_value.rs:23-30 | a string or model value is replaced by its constant mapping when the dictionary has one and kept as is otherwise; a non-string object panics |
| TlaTypedValue.KindReadModulo32 | src/action/tla_typed_value.rs:14-16 | the kind is read as `u64` and truncated to `u32`, so kinds that differ by 2^32 decode alike |
| TlaTypedValue.ItemResultsAt | src/action/tla_typed_value.rs:85-89 | the per-item outcomes are the decodings of the items, position by position |
| TlaTypedValue.ItemResultsInOrder | src/action/tla_typed_value.rs:80-91 | decoding an array succeeds exactly when every item does (in order), and the first failure is the outcome |
| TlaTypedValue.ItemsInOrder | src/action/tla_typed_value.rs:80-91 | array decoding succeeds exactly when every item decodes, and then yields each item's value at its position |
| TlaTypedValue.ItemsFirstFailure | src/action/tla_typed_value.rs:85-89 | when items decode up to position j and item j fails, the array fails with item j's error |
| TlaTypedValue.TupleDecodesElementwise | src/action/tla_typed_value.rs:92-95 | a tuple's object must be an array; it decodes to an array of the same length whose i-th element is the i-th item's value, and succeeds exactly when every item decodes |
| TlaTypedValue.SetDecodesElementwise | src/action/tla_typed_value.rs:97-100 | a set's object must be an array; when every item decodes, the result is `mt_set` of the item values in order, and any failing item fails the set |
| TlaTypedValue.FieldsInOrder | src/action/tla_typed_value.rs:102-113 | record decoding succeeds exactly when every field value decodes; keys are kept in order with their decoded values |
| TlaTypedValue.FieldsFirstFailure | src/action/tla_typed_value.rs:108-111 | the first field that fails decides the record's error |
| TlaTypedValue.RecordKeepsKeys | src/action/tla_typed_value.rs:102-113 | a record's object must be a JSON object; the result has the same keys in the same order, each mapped to its decoded value |
| TlaTypedValue.EntryDecodesBoth | src/action/tla_typed_value.rs:64-74 | a function entry needs `domain` and `value`: the domain is decoded first and its error wins, then the image |
| TlaTypedValue.EntryResultsAt | src/action/tla_typed_value.rs:64-74 | the per-entry outcomes are the decodings of the entries, position by position |
| TlaTypedValue.EntryResultsInOrder | src/action/tla_typed_value.rs:64-74 | the entry loop succeeds exactly when every entry does (in order), and the first failure is the outcome |
| TlaTypedValue.FcnEntriesInOrder | src/action/tla_typed_value.rs:64-74 | the entry loop succeeds exactly when every entry decodes, and yields the (domain, image) pairs in order |
| TlaTypedValue.FcnEntriesFirstFailure | src/action/tla_typed_value.rs:64-74 | the first failing entry decides the function's error |
| TlaTypedValue.FcnDecodesEntries | src/action/tla_typed_value.rs:57-77 | a function's object must be a JSON object; when every entry decodes the result is `mt_map` of the pairs in order, and any failing entry fails the function |
| TlaTypedValue.GetTypedValue | src/action/tla_typed_value.rs:11-55 | the decoder's dispatch computes exactly the specification `TypedValue` (whose behaviour per kind is stated by the lemmas above) |
| TlaTypedValue.GetFcnValue | src/action/tla_typed_value.rs:57-77 | the entry loop computes exactly `FcnValue` |
| TlaTypedValue.GetArray | src/action/tla_typed_value.rs:80-91 | the item loop computes exactly `ArrayValues` |
| TlaTypedValue.GetTupleValue | src/action/tla_typed_value.rs:92-95 | computes exactly `TupleValue` |
| TlaTypedValue.GetSetValue | src/action/tla_typed_value.rs:97-100 | computes exactly `SetValue` |
| TlaTypedValue.GetRecordValue | src/action/tla_typed_value.rs:102-113 | the field loop computes exactly `RecordValue` |
| ToAction.FlattenAppend | src/trace/to_action.rs:76-89 | the rows handed on by successive batches are the concatenation of those batches |
| ToAction.Values | src/trace/to_action.rs:26-31 | when every row converts there is one value per row |
| ToAction.ValuesAt | src/trace/to_action.rs:26-31 | when every row converts, the i-th value is the i-th row's conversion |
| ToAction.EffectsOfAppend | src/trace/to_action.rs:26-31 | one more callback call appends exactly that call's effects |
| ToAction.ReadActions | src/trace/to_action.rs:19-33 | rows are converted and handed to the callback in order. The run stops at the first conversion error or callback error and returns that error; it succeeds exactly when every row converts and every call succeeds; the effects are the handled calls' effects in order |
| ToAction.BatchSize | src/trace/to_action.rs:76-85 | the flush threshold is `batch_rows` when it is at least 1, and 1 when it is 0, so a `batch_rows` of 0 flushes after every row |
| ToAction.FlattenChunks | src/trace/to_action.rs:76-89 | the batches, concatenated, are exactly the values |
| ToAction.ChunkSizes | src/trace/to_action.rs:76-89 | every batch is non-empty and at most the batch size, and every batch but the last is full |
| ToAction.ChunksCons | src/trace/to_action.rs:81-84 | a full leading batch is flushed on its own |
| ToAction.ChunksAfterFull | src/trace/to_action.rs:81-84 | after full batches, the remaining batches are those of the remainder |
| ToAction.ValuesSplit | src/trace/to_action.rs:76-85 | converting a prefix and the rest is converting the whole |
| ToAction.ChunkAt | src/trace/to_action.rs:76-89 | a batch that follows full batches is the next batch of the whole value list |
| ToAction.ConvertedPrefixShorter | src/trace/to_action.rs:76-80 | a prefix of the converted values is itself a converted prefix |
| ToAction.ConvertedPrefixSnoc | src/trace/to_action.rs:76-80 | converting the next row extends the converted prefix |
| ToAction.ConvertedAll | src/trace/to_action.rs:76-89 | once every row has been converted, the values are exactly `Values(rows)` |
| ToAction.RejectedAt | src/trace/to_action.rs:81-89 | a callback error on any batch means the rows are not accepted |
| ToAction.FullBatchesSnoc | src/trace/to_action.rs:81-84 | an accepted full flush keeps every earlier batch full and accepted |
| ToAction.BatchedAfterFull | src/trace/to_action.rs:81-89 | one more batch of at most the batch size after full ones keeps the batch shape |
| ToAction.LastChunk | src/trace/to_action.rs:87-89 | the remainder is flushed as one last batch when non-empty, and no empty batch is ever flushed |
| ToAction.ConvertErrorOutcome | src/trace/to_action.rs:77-80 | a conversion error ends the run with that error, which is the first failing row's and lies in the pending batch; the pending batch is dropped and only the earlier full, accepted flushes' effects remain |
| ToAction.HandlerErrorOutcome | src/trace/to_action.rs:81-84 | a callback error ends the run with that error, after that call's effects |
| ToAction.FinishOutcome | src/trace/to_action.rs:86-91 | when the rows end on a full batch, nothing more is flushed and the run succeeds |
| ToAction.FinishLastOutcome | src/trace/to_action.rs:87-91 | the leftover batch is flushed once at the end and its result decides the run |
| ToAction.ReadActionBatch | src/trace/to_action.rs:63-92 | the callback receives the values in batches of the batch size (the last one possibly shorter, never empty) in order. The run stops at the first conversion or callback error and returns it. A callback error is the last batch's, which is full unless every row was read. A conversion error is the first failing row's, found after the accepted full batches and within the next m rows. The run succeeds exactly when every row converts and every batch is accepted; the effects are those of the calls made |
| ToAction.Messages | src/trace/to_action.rs:45-55 | the messages handed to `f` are the parsed JSON of each action, position by position |
| ToAction.DeliverInOrder | src/trace/to_action.rs:45-55 | a row's action list succeeds exactly when every action converts, parses and is accepted, and `f` then receives their messages in list order |
| ToAction.DeliverFirstFailure | src/trace/to_action.rs:45-55 | the first action that fails decides the outcome: its conversion error, a panic when it does not parse, or `f`'s error. `f` has received exactly the messages before it, plus its own when `f` itself failed |
| ToAction.MessagesActionsThenStates | src/trace/to_action.rs:45-55 | a row's actions are handed on before its states, each list in its own order |
| ToAction.ReadActionMessage | src/trace/to_action.rs:35-61 | the result is Ok or a panic (the unwrap). It is Ok exactly when every row converts and every row's closure succeeds, and then `f` received every row's messages in row order |
| ToAction.TraceDb.constructor | src/trace/to_action.rs:95 | a database handle in a given stage with no writes made |
| ToAction.TraceDb.GetState | src/trace/to_action.rs:96-99 | reports the database's stage |
| ToAction.TraceDb.BeginWriteAction | src/trace/to_action.rs:100-103 | logs the start of the write, stage unchanged |
| ToAction.TraceDb.Apply | src/trace/to_action.rs:118 | logs the callback's `write_action` calls in order, stage unchanged |
| ToAction.TraceDb.EndWriteAction | src/trace/to_action.rs:127 | logs the end of the write, stage unchanged |
| ToAction.TraceDb.GenGraph | src/trace/to_action.rs:133 | builds the graph from what was written |
| ToAction.WriterOnlyWrites | src/trace/to_action.rs:108-121 | the batch closure's effects are only `write_action` calls, never an end of write |
| ToAction.StateToAction | src/trace/to_action.rs:94-136 | outside the WriteAction stage nothing is written and the graph is built. In WriteAction a begin is logged; the run succeeds exactly when the rows are accepted in batches of 10000, and then the log is begin, each batch's tuples in order, then end, and the graph is built. Any batch error is returned as the batch run's error, after begin and the batches' writes, and no end of write is logged |
| ActionReorder.Acquire | src/dtm/action_reorder.rs:59-78 | an absent action enters the table with a fresh channel and count 1; a present one keeps its channel and gains one reference; other entries are untouched |
| ActionReorder.Release | src/dtm/action_reorder.rs:80-93 | a present action loses one reference but never goes below 0; absent actions and other entries are untouched; nothing leaves the table |
| ActionReorder.AcquireKeepsChannels | src/dtm/action_reorder.rs:59-78 | taking a channel keeps every channel distinct |
| ActionReorder.ReleaseKeepsChannels | src/dtm/action_reorder.rs:80-93 | giving a reference back keeps every channel distinct |
| ActionReorder.ApplyFrame | src/dtm/action_reorder.rs:34-57 | each public call keeps channels distinct, adds at most its own action, keeps its channel and touches no other entry |
| ActionReorder.AcquireReleaseRestores | src/dtm/action_reorder.rs:59-93 | taking and returning a reference restores a present entry exactly |
| ActionReorder.AddNetEffect | src/dtm/action_reorder.rs:52-57 | a successful `add_action` leaves a fresh action in the table with count 0 and changes nothing for an existing one |
| ActionReorder.WaitNetEffect | src/dtm/action_reorder.rs:34-50 | a received `wait_action` leaves the count as it was; a timed-out one leaves it one higher |
| ActionReorder.ReplayRefs | src/dtm/action_reorder.rs:34-93 | over any sequence of calls, an action's count grows by exactly its failed sends and timed-out waits; entries never leave and keep their channels; channels stay distinct |
| ActionReorder.Reorder.constructor | src/dtm/action_reorder.rs:27-32 | a new reorderer has an empty table |
| ActionReorder.Reorder.GetChannel | src/dtm/action_reorder.rs:59-78 | returns the action's existing channel or a fresh one numbered by the table size; the table becomes `Acquire` of the old one; channels stay distinct |
| ActionReorder.Reorder.DecRefNum | src/dtm/action_reorder.rs:80-93 | the table becomes `Release` of the old one; channels stay distinct |
| ActionReorder.Reorder.AddAction | src/dtm/action_reorder.rs:52-57 | succeeds exactly when the send does; a failed send returns its error and keeps the reference; the new table is that call's effect |
| ActionReorder.Reorder.WaitAction | src/dtm/action_reorder.rs:34-50 | a timeout returns false and keeps the reference. A receive gives the reference back, then returns the receive error, true for the awaited action, or a panic for any other action |
| TestDtmPlayer.OpIds | src/dtm/test_dtm_player.rs:701-705 | a task's operation ids are 1 to numOps in order |
| TestDtmPlayer.OpMessages | src/dtm/test_dtm_player.rs:715-722 | one internal TaskOp message per operation id, in order, addressed from the node to itself |
| TestDtmPlayer.TestMessages | src/dtm/test_dtm_player.rs:699-732 | a task has numOps + 2 actions |
| TestDtmPlayer.TestMessagesLayout | src/dtm/test_dtm_player.rs:699-732 | a task's actions are an input TaskNew listing its op ids, then the internal TaskOp k for k = 1..numOps, then an output TaskEnd, numOps + 2 in all |
| TestDtmPlayer.GenerateTestMessage | src/dtm/test_dtm_player.rs:699-732 | builds exactly that task's action list |
| TestDtmPlayer.PickAsWritten | src/dtm/test_dtm_player.rs:652 | `gen_range(0..n - 1)` panics exactly when n <= 1 and otherwise draws below n - 1 |
| TestDtmPlayer.PickAsWrittenPanicsOnOne | src/dtm/test_dtm_player.rs:652 | with one node the draw panics |
| TestDtmPlayer.PickAsWrittenMissesLast | src/dtm/test_dtm_player.rs:652 | with three nodes the draw never selects the last node |
| TestDtmPlayer.Pick | src/dtm/test_dtm_player.rs:652 | the corrected draw `gen_range(0..n)` stays in range |
| TestDtmPlayer.PickReachesAll | src/dtm/test_dtm_player.rs:652 | the corrected draw can select every index |
| TestDtmPlayer.Draw | src/dtm/test_dtm_player.rs:652 | a draw panics exactly when its range is empty (n <= 1 as written, n = 0 as intended) and otherwise stays below the range's end |
| TestDtmPlayer.TaskNode | src/dtm/test_dtm_player.rs:651-658 | task t's node index is within the drawn range |
| TestDtmPlayer.TaskPlacementAsWritten | src/dtm/test_dtm_player.rs:649-661 | as written, each task opens on a node other than the last |
| TestDtmPlayer.TaskPlacementIntended | src/dtm/test_dtm_player.rs:649-661 | with the intended draw, each task opens on the node its draw names, which can be any node |
| TestDtmPlayer.TaskQueuesAt | src/dtm/test_dtm_player.rs:649-661 | queue t holds the actions of task BeginTaskId + t, with the drawn node as both sender and receiver |
| TestDtmPlayer.StopsAt | src/dtm/test_dtm_player.rs:684-691 | the k-th stop is an input TaskStop addressed to node k |
| TestDtmPlayer.Stops | src/dtm/test_dtm_player.rs:684-691 | one stop per node |
| TestDtmPlayer.ProjectSnoc | src/dtm/test_dtm_player.rs:669-679 | taking a message from queue q extends only q's projection of the output |
| TestDtmPlayer.TotalLenPop | src/dtm/test_dtm_player.rs:669-679 | popping a message leaves one fewer pending message in total |
| TestDtmPlayer.TotalLenZero | src/dtm/test_dtm_player.rs:680-682 | when every queue is empty nothing is pending |
| TestDtmPlayer.TaskActionsIsProduct | src/dtm/test_dtm_player.rs:649-661 | numTx tasks of numOps operations make numTx * (numOps + 2) actions |
| TestDtmPlayer.TaskQueues | src/dtm/test_dtm_player.rs:649-661 | one queue per task |
| TestDtmPlayer.TotalLenTasks | src/dtm/test_dtm_player.rs:649-661 | the task queues together hold exactly numTx * (numOps + 2) actions |
| TestDtmPlayer.Covers | src/dtm/test_dtm_player.rs:669-679 | a full scan from any start visits every queue |
| TestDtmPlayer.TakeHead | src/dtm/test_dtm_player.rs:669-679 | taking the head of a non-empty queue keeps each queue's taken messages in its order, and the pending total drops |
| TestDtmPlayer.AllTaken | src/dtm/test_dtm_player.rs:680-682 | once every queue is drained the output is an interleaving of all the queues that holds every message |
| TestDtmPlayer.Interleave | src/dtm/test_dtm_player.rs:663-683 | panics exactly when the start draw's range is empty: fewer than two queues as written, no queue as intended. Otherwise the output is an interleaving of the task queues: each queue's messages appear in their own order, and every message appears exactly once |
| TestDtmPlayer.StopsSnoc | src/dtm/test_dtm_player.rs:684-691 | stops are pushed node by node in node order |
| TestDtmPlayer.AllMessagesSplit | src/dtm/test_dtm_player.rs:640-697 | the output is the interleaved task actions followed by the stops |
| TestDtmPlayer.PushStops | src/dtm/test_dtm_player.rs:684-691 | appends one input TaskStop per node, in node order |
| TestDtmPlayer.BuildTaskQueues | src/dtm/test_dtm_player.rs:649-661 | panics exactly when there are tasks and the node draw's range is empty: fewer than two nodes as written, no node as intended. Otherwise builds the task queues in task order, each for its drawn node |
| TestDtmPlayer.GenerateAllTestMessage | src/dtm/test_dtm_player.rs:640-697 | as written, panics exactly when there are fewer than two tasks or fewer than two nodes; as intended, exactly when there is no task or no node. Otherwise there are numTx * (numOps + 2) task actions, an interleaving of the per-task sequences, followed by one stop per node in node order |
| TestDtmPlayer.ActionInputStub.constructor | src/dtm/test_dtm_player.rs:154-159 | the stub's queue is the given actions, in order |
| TestDtmPlayer.ActionInputStub.Next | src/dtm/test_dtm_player.rs:163-170 | pops the front action, or reports end of input when the queue is empty |
| TestDtmPlayer.PopFront | src/dtm/test_dtm_player.rs:163-170 | an empty queue gives the end-of-input error and stays empty; otherwise the head is returned and the rest remains |
| TestDtmPlayer.ResponsesInOrder | src/dtm/test_dtm_player.rs:163-170 | n successive calls return the queued actions in order and then end of input on every later call |
| TestDtmPlayer.History.constructor | src/dtm/test_dtm_player.rs:195-199 | a new history is empty |
| TestDtmPlayer.History.AddActionToHistory | src/dtm/test_dtm_player.rs:219-223 | appends the action at the end of the history, one step of `Recorded` |
| TestDtmPlayer.History.CheckHistory | src/dtm/test_dtm_player.rs:201-217 | succeeds exactly when the history has the expected length and matches position by position, that is, equals the expected list; otherwise the assertion panics |
| TestDtmPlayer.RecordedInOrder | src/dtm/test_dtm_player.rs:219-223 | recording a list of actions one by one leaves the history followed by those actions |

## Left out

- Sockets, threads and the non-DTM branch of the echo server are left out. Payloads reach the session as a message sequence, and the trace sink is the record list the session returns.
- The C++ exception handlers are modelled only in part. A closed queue ends the session (QueueClosed). The throw of `value_to<std::string>` ends it too (Threw, see "## Findings"). Other socket and asio exceptions belong to the I/O that is not modelled.
- EchoServer.RunMain: `atoi`'s parsing of the argument text is left out. Its results are parameters, and the model keeps only the width conversions.
- SQLite storage, query execution and serde parsing are left out. A query is the sequence of rows it yields. Reading and parsing a row, including `format_kind_object`, is the `convert` parameter.
- `tla_constant_mapping` is the `Env.dict` parameter. Its own construction and the `unwrap` on its absence are not part of this model.
- `to_action_json`, `TLAActionSeq::from`, `to_tuple` and the `ActionMessage` text parser are parameters (`toJson`, `fromValue`, `toTuple`, `parse`). Their internals are not modelled.
- The `mt_set` and `mt_map` builders (`Env.mtSet`, `Env.mtMap`) are parameters. Only their inputs are stated.
- TLA+ kind constants are the `KindCodes` parameter. Dispatch follows the order of the match arms.
- In the trace database, failures of `get_state`, `begin_write_action`, `end_write_action` and `gen_graph` are not modelled. These are the storage errors of SQLite. `TraceDb` keeps only its stage and the log of writes made.
- In the action reorderer:
  - The tokio locks are left out, and so are the interleavings between the table lock and an entry's mutex. Each call is one atomic step.
  - The timeout duration is left out. Which branch of `select!` wins is a parameter.
  - The internals of `io_event_channel` are left out. A channel is identified by its creation index.
  - The `u64` reference count's overflow is not modelled.
- TestDtmPlayer.ActionInputStub: the JSON text that the stub serializes for tracing (`text`) is kept as the action list. The `to_serde_json_string` error and `trace_text` are not modelled.
- TestDtmPlayer.GenerateAllTestMessage: with no task, the code as written computes `size - 1` on a zero `usize`. A debug build panics there, which is the outcome the model gives. A release build wraps instead, and its interleaving loop ends at once; that release behaviour is not modelled.
- TestDtmPlayer.GenerateTestMessage: task ids and op ids are unbounded naturals. `u64` overflow is not modelled.
- `ThreadRng` is left out. Draws are functions from the draw's index to a number, reduced into range by `Draw`.
- Logging and tracing calls are left out.

## Findings

| source | as written | input that shows it | evidently intended | confidence | as-written member | corrected member |
|---|---|---|---|---|---|---|
| example/echo/echo_server.cpp:66 and 83 | the receive and reply actions are built as JSON objects and then converted with `value_to<std::string>`, which throws on an object; the handler at lines 91-93 ends the session | a queue holding a "hello" message and then a stop: nothing is recorded after SERVER_START, and the session ends at "hello" | serialize the action object to text, so that each echoed message records its receive and reply actions | not executed | EchoServer.SessionAsWritten | EchoServer.Session |
| src/dtm/test_dtm_player.rs:652 and 667 | `gen_range(0..n - 1)` draws a node index (and a start queue) from a half-open range that excludes n - 1, and panics for an empty range | 3 nodes: node index 2 is never chosen. 1 node (or 1 task at line 667): `gen_range(0..0)` panics | `gen_range(0..n)`, so that every node and every start queue can be drawn | not executed | TestDtmPlayer.TaskPlacementAsWritten | TestDtmPlayer.TaskPlacementIntended |

`Session` and the echo lemmas state the intended behaviour; `SessionAsWritten`
and `EchoesLostAsWritten` state the code as written. The player's generators
take a `DrawRange`: `AsWritten` is the code's `gen_range(0..n - 1)` and
`Intended` is `gen_range(0..n)`. `PickAsWritten`, `PickAsWrittenPanicsOnOne`
and `PickAsWrittenMissesLast` state the draw itself as written, and `Pick` and
`PickReachesAll` the corrected one.
