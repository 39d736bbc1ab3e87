/**
  The echo server of example/echo/echo_server.cpp, built with ENABLE_DTM:
  the deterministic-replay session loop, which takes its messages from the
  per-remote queue and records one input action and one output action per
  echoed message, the SERVER_START record of `server`, and the argument
  check of `main`.

  The instrumentation sink is an action trace the session appends to; the
  queue is the sequence of messages it would deliver, in order.
 */
module EchoServer {

  import opened Results

  /** The largest payload a session echoes, in bytes (`max_length`). */
  const MaxLength := 1024

  /** The sentinel message type that ends a session. */
  const StopType := "stop"

  type U64 = x: int | 0 <= x < 0x1_0000_0000_0000_0000

  /**
    A message pulled from the queue. Both fields are `std::string`s: each
    character here stands for one byte, so `|json|` is `json.length()`.
   */
  datatype Message = Message(kind: string, json: string)

  /** Which instrumentation macro recorded the action. */
  datatype Io = Input | Output

  /** The action payload handed to the sink. */
  datatype Action =
    | ServerStart
    | ReceiveFromClient(message: string)
    | ReplyToClient(message: string)

  /** One instrumentation record: (kind, local id, remote id, payload). */
  datatype Record = Record(io: Io, local: U64, remote: U64, action: Action)

  /** Why a session left its loop. */
  datatype EndReason =
    | NoQueue      // the queue `shared_ptr` is null
    | Stopped      // a "stop"-typed message was pulled
    | Oversized    // a payload longer than MaxLength was pulled
    | QueueClosed  // the queue was closed once drained: `pull` throws and the session's handler ends it
    | Threw        // turning the action object into text threw, and the session's handler ended it

  /** A message that ends the session instead of being echoed. */
  predicate Halts(m: Message) {
    m.kind == StopType || |m.json| > MaxLength
  }

  /** The position of the first message that ends the session, or |msgs| when none does. */
  function FirstHalt(msgs: seq<Message>): (k: nat)
    ensures k <= |msgs|
    ensures forall i :: 0 <= i < k ==> !Halts(msgs[i])
    ensures k < |msgs| ==> Halts(msgs[k])
  {
    if msgs == [] then 0
    else if Halts(msgs[0]) then 0
    else 1 + FirstHalt(msgs[1..])
  }

  /** The two records one echoed message leaves: receive, then reply, same payload. */
  function EchoPair(local: U64, remote: U64, m: Message): seq<Record> {
    [Record(Input, local, remote, ReceiveFromClient(m.json)),
     Record(Output, local, remote, ReplyToClient(m.json))]
  }

  /** The records of a sequence of echoed messages, in pull order. */
  function EchoTrace(local: U64, remote: U64, msgs: seq<Message>): (t: seq<Record>)
    ensures |t| == 2 * |msgs|
  {
    if msgs == [] then []
    else EchoPair(local, remote, msgs[0]) + EchoTrace(local, remote, msgs[1..])
  }

  /**
    Position by position: the i-th accepted message leaves its receive
    record at 2i and its reply record at 2i + 1, both with its payload
    unchanged and the session's (local, remote) pair.
   */
  lemma {:induction false} EchoTraceAt(local: U64, remote: U64, msgs: seq<Message>, i: nat)
    requires i < |msgs|
    ensures EchoTrace(local, remote, msgs)[2 * i] == Record(Input, local, remote, ReceiveFromClient(msgs[i].json))
    ensures EchoTrace(local, remote, msgs)[2 * i + 1] == Record(Output, local, remote, ReplyToClient(msgs[i].json))
  {
    if i > 0 {
      EchoTraceAt(local, remote, msgs[1..], i - 1);
    }
  }

  lemma {:induction false} EchoTraceAppend(local: U64, remote: U64, msgs: seq<Message>, m: Message)
    ensures EchoTrace(local, remote, msgs + [m]) == EchoTrace(local, remote, msgs) + EchoPair(local, remote, m)
  {
    if msgs != [] {
      assert (msgs + [m])[1..] == msgs[1..] + [m];
      EchoTraceAppend(local, remote, msgs[1..], m);
    }
  }

  /**
    The trace a replayed session is meant to leave: one receive/reply pair
    per message before the first halting one; nothing for a null queue.
   */
  function SessionTrace(local: U64, remote: U64, queue: Option<seq<Message>>): seq<Record> {
    match queue
    case None => []
    case Some(msgs) => EchoTrace(local, remote, msgs[..FirstHalt(msgs)])
  }

  /**
    The replay branch of `session` as it is evidently meant to work: pull
    messages until the queue is null, a stop message or an oversized message
    arrives, or the queue is closed; echo every other message as a receive
    record followed by a reply record. (As written, the first echoed message
    throws instead: see `SessionAsWritten`.)
   */
  method Session(local: U64, remote: U64, queue: Option<seq<Message>>)
    returns (trace: seq<Record>, consumed: nat, end: EndReason)
    ensures trace == SessionTrace(local, remote, queue)
    ensures queue.None? ==> consumed == 0 && end == NoQueue
    ensures queue.Some? ==>
              var msgs := queue.value;
              var k := FirstHalt(msgs);
              && consumed == (if k < |msgs| then k + 1 else k)
              && end == (if k == |msgs| then QueueClosed
                         else if msgs[k].kind == StopType then Stopped
                         else Oversized)
  {
    var msgs := if queue.Some? then queue.value else [];
    trace, consumed := [], 0;
    while true
      invariant consumed <= FirstHalt(msgs)
      invariant trace == EchoTrace(local, remote, msgs[..consumed])
      decreases |msgs| - consumed
    {
      if queue.None? {
        end := NoQueue;
        break;
      }
      if consumed == |msgs| {
        end := QueueClosed;
        break;
      }
      var message := msgs[consumed];
      if message.kind == StopType {
        assert Halts(message) && consumed == FirstHalt(msgs);
        consumed := consumed + 1;
        end := Stopped;
        break;
      }
      if |message.json| > MaxLength {
        assert Halts(message) && consumed == FirstHalt(msgs);
        consumed := consumed + 1;
        end := Oversized;
        break;
      }
      assert !Halts(message) && consumed < FirstHalt(msgs);
      EchoTraceAppend(local, remote, msgs[..consumed], message);
      assert msgs[..consumed + 1] == msgs[..consumed] + [message];
      ghost var before := trace;
      trace := trace + [Record(Input, local, remote, ReceiveFromClient(message.json))];
      trace := trace + [Record(Output, local, remote, ReplyToClient(message.json))];
      assert trace == before + EchoPair(local, remote, message);
      consumed := consumed + 1;
    }
  }

  /**
    The replay branch of `session` as written. Each action is built as a
    JSON object and then handed to `value_to<std::string>`, which converts
    only a JSON string and throws on an object; the session's handler
    catches the exception and the session ends. So the first message that
    passes the stop and size checks ends the session before its receive
    record is made, and no path reaches a second round of the loop.
   */
  method SessionAsWritten(local: U64, remote: U64, queue: Option<seq<Message>>)
    returns (trace: seq<Record>, consumed: nat, end: EndReason)
    ensures trace == []
    ensures queue.None? ==> consumed == 0 && end == NoQueue
    ensures queue.Some? && queue.value == [] ==> consumed == 0 && end == QueueClosed
    ensures queue.Some? && queue.value != [] ==>
              && consumed == 1
              && end == (if queue.value[0].kind == StopType then Stopped
                         else if |queue.value[0].json| > MaxLength then Oversized
                         else Threw)
    ensures end == Threw <==> queue.Some? && FirstHalt(queue.value) > 0
  {
    // the `for (;;)` body, whose every path leaves the loop in the first round
    trace, consumed := [], 0;
    if queue.None? {
      end := NoQueue;
      return;
    }
    var msgs := queue.value;
    if msgs == [] {
      end := QueueClosed;
      return;
    }
    var message := msgs[0];
    consumed := 1;
    if message.kind == StopType {
      end := Stopped;
    } else if |message.json| > MaxLength {
      end := Oversized;
    } else {
      // `value_to<std::string>` on the receive action object throws here
      end := Threw;
    }
  }

  /**
    Whenever the intended session echoes anything, the code as written
    records nothing: the intended trace starts with the first message's
    receive record, while `SessionAsWritten` ends with `Threw` and an
    empty trace.
   */
  lemma EchoesLostAsWritten(local: U64, remote: U64, msgs: seq<Message>)
    requires FirstHalt(msgs) > 0
    ensures |SessionTrace(local, remote, Some(msgs))| >= 2
    ensures SessionTrace(local, remote, Some(msgs))[0] == Record(Input, local, remote, ReceiveFromClient(msgs[0].json))
  {
    EchoTraceAt(local, remote, msgs[..FirstHalt(msgs)], 0);
  }

  /**
    The i-th pair of records: a receive then a reply, both under the
    session's (local, remote) pair, the reply carrying the received payload.
   */
  predicate EchoedAt(t: seq<Record>, local: U64, remote: U64, i: nat)
    requires 2 * i + 1 < |t|
  {
    && t[2 * i].io == Input && t[2 * i].action.ReceiveFromClient?
    && t[2 * i + 1].io == Output && t[2 * i + 1].action.ReplyToClient?
    && t[2 * i].local == local && t[2 * i].remote == remote
    && t[2 * i + 1].local == local && t[2 * i + 1].remote == remote
    && t[2 * i + 1].action.message == t[2 * i].action.message
  }

  lemma EchoTracePairs(local: U64, remote: U64, msgs: seq<Message>)
    ensures forall i :: 0 <= i < |msgs| ==> EchoedAt(EchoTrace(local, remote, msgs), local, remote, i)
  {
    forall i | 0 <= i < |msgs|
      ensures EchoedAt(EchoTrace(local, remote, msgs), local, remote, i)
    {
      EchoTraceAt(local, remote, msgs, i);
    }
  }

  /**
    The shape of every session's trace: an even number of records, in
    pairs of a receive and then a reply, all under the session's (local,
    remote) pair, each reply carrying the payload received just before it.
   */
  lemma SessionTraceAlternates(local: U64, remote: U64, queue: Option<seq<Message>>)
    ensures |SessionTrace(local, remote, queue)| % 2 == 0
    ensures forall i: nat :: 2 * i + 1 < |SessionTrace(local, remote, queue)| ==>
              EchoedAt(SessionTrace(local, remote, queue), local, remote, i)
  {
    if queue.Some? {
      EchoTracePairs(local, remote, queue.value[..FirstHalt(queue.value)]);
    }
  }

  /** A session whose first message is a stop or oversized message records nothing. */
  lemma HaltingFirstMessageRecordsNothing(local: U64, remote: U64, m: Message, rest: seq<Message>)
    requires Halts(m)
    ensures SessionTrace(local, remote, Some([m] + rest)) == []
  {
  }

  /** The size limit is inclusive: a payload of exactly MaxLength bytes is still echoed. */
  lemma LimitIsInclusive(local: U64, remote: U64, m: Message)
    requires m.kind != StopType && |m.json| == MaxLength
    ensures SessionTrace(local, remote, Some([m])) == EchoPair(local, remote, m)
  {
    assert [m][..1] == [m];
  }

  /**
    A session only looks at messages up to the first halting one: whatever
    follows it in the queue changes nothing in the trace.
   */
  lemma {:induction false} FirstHaltIgnoresSuffix(msgs: seq<Message>, rest: seq<Message>)
    requires FirstHalt(msgs) < |msgs|
    ensures FirstHalt(msgs + rest) == FirstHalt(msgs)
  {
    if !Halts(msgs[0]) {
      assert (msgs + rest)[1..] == msgs[1..] + rest;
      FirstHaltIgnoresSuffix(msgs[1..], rest);
    }
  }

  lemma {:induction false} SessionIgnoresSuffix(local: U64, remote: U64, msgs: seq<Message>, rest: seq<Message>)
    requires FirstHalt(msgs) < |msgs|
    ensures SessionTrace(local, remote, Some(msgs + rest)) == SessionTrace(local, remote, Some(msgs))
  {
    FirstHaltIgnoresSuffix(msgs, rest);
    var k := FirstHalt(msgs);
    assert (msgs + rest)[..k] == msgs[..k];
  }

  /**
    Appending an accepted message to a queue that has not halted extends the
    trace by exactly that message's receive/reply pair.
   */
  lemma {:induction false} SessionTraceExtends(local: U64, remote: U64, msgs: seq<Message>, m: Message)
    requires FirstHalt(msgs) == |msgs| && !Halts(m)
    ensures SessionTrace(local, remote, Some(msgs + [m]))
         == SessionTrace(local, remote, Some(msgs)) + EchoPair(local, remote, m)
  {
    FirstHaltAllAccepted(msgs + [m]);
    assert msgs[..|msgs|] == msgs;
    assert (msgs + [m])[..|msgs| + 1] == msgs + [m];
    EchoTraceAppend(local, remote, msgs, m);
  }

  lemma {:induction false} FirstHaltAllAccepted(msgs: seq<Message>)
    requires forall i :: 0 <= i < |msgs| ==> !Halts(msgs[i])
    ensures FirstHalt(msgs) == |msgs|
  {
    if msgs != [] {
      FirstHaltAllAccepted(msgs[1..]);
    }
  }

  /** The first record of `server`: SERVER_START, with the local id on both ends. */
  function ServerStartRecord(localId: U64): (r: Record)
    ensures r.io == Input && r.action == ServerStart
    ensures r.local == localId && r.remote == localId
  {
    Record(Input, localId, localId, ServerStart)
  }

  /** What `main` does with its arguments. */
  datatype Launch =
    | UsageError(exitCode: int)                 // wrong argument count: nothing started
    | Serving(port: nat, localId: U64, trace: seq<Record>)  // the server runs; `trace` is what it records before accepting

  /**
    `main`: anything but exactly two arguments (argc == 3) exits with code 1
    without starting the server; otherwise the server starts on the port and
    local id that `atoi` read (`portArg`, `idArg`), converted to
    `unsigned short` and `uint64_t` with C++'s modular conversions, and
    records SERVER_START before it accepts any connection.
   */
  function RunMain(argc: int, portArg: int, idArg: int): (r: Launch)
    ensures r.UsageError? <==> argc != 3
    ensures r.UsageError? ==> r.exitCode == 1
    ensures r.Serving? ==> r.port < 0x1_0000 && r.port % 0x1_0000 == portArg % 0x1_0000
    ensures r.Serving? ==> r.localId % 0x1_0000_0000_0000_0000 == idArg % 0x1_0000_0000_0000_0000
    ensures r.Serving? ==>
              |r.trace| == 1 && r.trace[0].action == ServerStart &&
              r.trace[0].local == r.localId && r.trace[0].remote == r.localId
  {
    if argc != 3 then UsageError(1)
    else
      var localId := idArg % 0x1_0000_0000_0000_0000;
      Serving(portArg % 0x1_0000, localId, [ServerStartRecord(localId)])
  }

  /**
    The scenario of a replayed session with local id 1 and remote id 7 that
    receives "hello" and then a stop message.
   */
  lemma HelloThenStop()
    ensures SessionTrace(1, 7, Some([Message("msg", "hello"), Message(StopType, "")]))
         == [Record(Input, 1, 7, ReceiveFromClient("hello")), Record(Output, 1, 7, ReplyToClient("hello"))]
  {
    var msgs := [Message("msg", "hello"), Message(StopType, "")];
    assert !Halts(msgs[0]) && Halts(msgs[1]);
    assert FirstHalt(msgs[1..]) == 0;
    assert msgs[..1] == [msgs[0]];
  }
}
