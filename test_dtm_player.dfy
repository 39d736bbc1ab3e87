/**
  The test-case generator and the replay stubs of src/dtm/test_dtm_player.rs:
  `generate_test_message` (one task's actions), `generate_all_test_message`
  (all tasks interleaved, then one stop per node), the `ActionInputStub`
  queue the player reads from, and the `History` log the nodes append to.

  The random number generator becomes draw functions: `draw(k)` is the
  k-th number drawn, which `Pick` reduces into the requested range.
 */
module TestDtmPlayer {

  import opened Results

  /** A node id (`NID`). */
  type Nid = nat

  /** The test application's messages. */
  datatype AppMsg =
    | TaskNew(taskId: nat, taskOps: seq<nat>)
    | TaskOp(taskId: nat, taskOp: nat)
    | TaskEnd(taskId: nat)
    | TaskStop

  datatype Message = Message(payload: AppMsg, source: Nid, dest: Nid)

  /** `ActionMessage<AppMsg>`: a message tagged with the kind of action it is. */
  datatype ActionMessage = Input(m: Message) | Internal(m: Message) | Output(m: Message)

  /** The id of the first task (`begin_task_id`). */
  const BeginTaskId: nat := 20220000

  // ---------------------------------------------------------------------
  // generate_test_message
  // ---------------------------------------------------------------------

  /** The operation ids of a task, 1 to numOps. */
  function OpIds(numOps: nat): (ids: seq<nat>)
    ensures |ids| == numOps
    ensures forall k :: 0 <= k < numOps ==> ids[k] == k + 1
  {
    if numOps == 0 then [] else OpIds(numOps - 1) + [numOps]
  }

  /** One internal `TaskOP` action per operation id, in order, on node `to`. */
  function OpMessages(id: nat, to: Nid, ops: seq<nat>): (r: seq<ActionMessage>)
    ensures |r| == |ops|
    ensures forall k :: 0 <= k < |ops| ==> r[k] == Internal(Message(TaskOp(id, ops[k]), to, to))
  {
    if ops == [] then [] else OpMessages(id, to, ops[..|ops| - 1]) + [Internal(Message(TaskOp(id, ops[|ops| - 1]), to, to))]
  }

  /**
    A task's actions: the input `TaskNew` carrying all its operation ids,
    sent from `from` to `to`; one internal `TaskOP` per operation, 1 to
    numOps, on `to`; and the output `TaskEnd` on `to`.
   */
  function TestMessages(from: Nid, to: Nid, id: nat, numOps: nat): (r: seq<ActionMessage>)
    ensures |r| == numOps + 2
  {
    [Input(Message(TaskNew(id, OpIds(numOps)), from, to))]
    + OpMessages(id, to, OpIds(numOps))
    + [Output(Message(TaskEnd(id), to, to))]
  }

  /**
    The layout of a task's actions: `TaskNew` first, operation k at
    position k, `TaskEnd` last.
   */
  lemma TestMessagesLayout(from: Nid, to: Nid, id: nat, numOps: nat)
    ensures TestMessages(from, to, id, numOps)[0] == Input(Message(TaskNew(id, OpIds(numOps)), from, to))
    ensures forall k :: 1 <= k <= numOps ==> TestMessages(from, to, id, numOps)[k] == Internal(Message(TaskOp(id, k), to, to))
    ensures TestMessages(from, to, id, numOps)[numOps + 1] == Output(Message(TaskEnd(id), to, to))
  {
    var ops := OpMessages(id, to, OpIds(numOps));
    var r := TestMessages(from, to, id, numOps);
    forall k | 1 <= k <= numOps
      ensures r[k] == Internal(Message(TaskOp(id, k), to, to))
    {
      assert r[k] == ops[k - 1];
    }
  }

  /** `generate_test_message`: collect the operation ids, then push the task's actions in order. */
  method GenerateTestMessage(from: Nid, to: Nid, id: nat, numOps: nat) returns (v: seq<ActionMessage>)
    ensures v == TestMessages(from, to, id, numOps)
  {
    var opIds: seq<nat> := [];
    var i := 0;
    while i < numOps
      invariant i <= numOps && opIds == OpIds(i)
    {
      opIds := opIds + [i + 1];
      i := i + 1;
    }
    v := [Input(Message(TaskNew(id, opIds), from, to))];
    var j := 0;
    while j < |opIds|
      invariant j <= |opIds|
      invariant v == [Input(Message(TaskNew(id, opIds), from, to))] + OpMessages(id, to, opIds[..j])
    {
      assert opIds[..j + 1][..j] == opIds[..j];
      v := v + [Internal(Message(TaskOp(id, opIds[j]), to, to))];
      j := j + 1;
    }
    assert opIds[..j] == opIds;
    v := v + [Output(Message(TaskEnd(id), to, to))];
  }

  // ---------------------------------------------------------------------
  // Random draws
  // ---------------------------------------------------------------------

  /**
    `rnd.gen_range(0..n - 1)` as written: Rust ranges exclude their end, so
    the last index n - 1 is never drawn; for n == 1 the range is empty and
    for n == 0 the subtraction underflows, and both panic.
   */
  function PickAsWritten(draw: nat, n: nat): (r: Res<nat>)
    ensures r.Err? <==> n <= 1
    ensures r.Err? ==> r.error == Panic
    ensures r.Ok? ==> r.value < n - 1
  {
    if n <= 1 then Err(Panic) else Ok(draw % (n - 1))
  }

  /** As written, a single node or a single task makes the generator panic. */
  lemma PickAsWrittenPanicsOnOne(draw: nat)
    ensures PickAsWritten(draw, 1) == Err(Panic)
  {
  }

  /** As written, with three nodes (the tests' setting) node 3 is never chosen. */
  lemma PickAsWrittenMissesLast(draw: nat)
    ensures PickAsWritten(draw, 3).Ok? && PickAsWritten(draw, 3).value != 2
  {
  }

  /** A draw from `0..n`, the range the generator evidently means: every index below n. */
  function Pick(draw: nat, n: nat): (r: nat)
    ensures n > 0 ==> r < n
  {
    if n == 0 then 0 else draw % n
  }

  /** Every index can be drawn. */
  lemma PickReachesAll(n: nat, i: nat)
    requires i < n
    ensures Pick(i, n) == i
  {
  }

  /** The range the generator's draws take: the code's own, or the one it evidently means. */
  datatype DrawRange =
    | AsWritten   // `gen_range(0..n - 1)`
    | Intended    // `gen_range(0..n)`

  /** How many indices at the top of the range a draw can never reach. */
  function Slack(range: DrawRange): nat {
    match range
    case AsWritten => 1
    case Intended => 0
  }

  /** One draw below n in the given range; an empty range panics. */
  function Draw(range: DrawRange, draw: nat, n: nat): (r: Res<nat>)
    ensures r.Err? <==> n <= Slack(range)
    ensures r.Err? ==> r.error == Panic
    ensures r.Ok? ==> r.value < n - Slack(range)
  {
    match range
    case AsWritten => PickAsWritten(draw, n)
    case Intended => if n == 0 then Err(Panic) else Ok(Pick(draw, n))
  }

  // ---------------------------------------------------------------------
  // generate_all_test_message
  // ---------------------------------------------------------------------

  /** The index of the node task t's draw picks. */
  function TaskNode(range: DrawRange, nodes: seq<Nid>, nodeDraw: nat -> nat, t: nat): (k: nat)
    requires |nodes| > Slack(range)
    ensures k < |nodes| - Slack(range)
  {
    Draw(range, nodeDraw(t), |nodes|).value
  }

  /** Task t's actions: both ends are the node its draw picks. */
  function TaskQueue(range: DrawRange, nodes: seq<Nid>, numOps: nat, nodeDraw: nat -> nat, t: nat): seq<ActionMessage>
    requires |nodes| > Slack(range)
  {
    var node := nodes[TaskNode(range, nodes, nodeDraw, t)];
    TestMessages(node, node, BeginTaskId + t, numOps)
  }

  /** The actions of tasks 0 to n - 1, one queue per task. */
  function TaskQueues(range: DrawRange, nodes: seq<Nid>, numOps: nat, nodeDraw: nat -> nat, n: nat): (qs: seq<seq<ActionMessage>>)
    requires |nodes| > Slack(range)
    ensures |qs| == n
  {
    if n == 0 then [] else TaskQueues(range, nodes, numOps, nodeDraw, n - 1) + [TaskQueue(range, nodes, numOps, nodeDraw, n - 1)]
  }

  /** Queue t holds task t's actions. */
  lemma {:induction false} TaskQueuesAt(range: DrawRange, nodes: seq<Nid>, numOps: nat, nodeDraw: nat -> nat, n: nat, t: nat)
    requires |nodes| > Slack(range) && t < n
    ensures TaskQueues(range, nodes, numOps, nodeDraw, n)[t] == TaskQueue(range, nodes, numOps, nodeDraw, t)
  {
    if t < n - 1 {
      TaskQueuesAt(range, nodes, numOps, nodeDraw, n - 1, t);
    }
  }

  /**
    As written, task t opens on a node drawn below the last one: with the
    code's draw the last node never receives a task.
   */
  lemma TaskPlacementAsWritten(nodes: seq<Nid>, numOps: nat, nodeDraw: nat -> nat, n: nat, t: nat)
    requires |nodes| > 1 && t < n
    ensures var k := TaskNode(AsWritten, nodes, nodeDraw, t);
            && k < |nodes| - 1
            && TaskQueues(AsWritten, nodes, numOps, nodeDraw, n)[t] == TaskQueue(AsWritten, nodes, numOps, nodeDraw, t)
            && TaskQueues(AsWritten, nodes, numOps, nodeDraw, n)[t][0]
               == Input(Message(TaskNew(BeginTaskId + t, OpIds(numOps)), nodes[k], nodes[k]))
  {
    TaskQueuesAt(AsWritten, nodes, numOps, nodeDraw, n, t);
    var k := TaskNode(AsWritten, nodes, nodeDraw, t);
    TestMessagesLayout(nodes[k], nodes[k], BeginTaskId + t, numOps);
  }

  /**
    With the intended draw, task t opens on whichever node its draw names,
    so every node can receive a task.
   */
  lemma TaskPlacementIntended(nodes: seq<Nid>, numOps: nat, nodeDraw: nat -> nat, n: nat, t: nat)
    requires t < n && nodeDraw(t) < |nodes|
    ensures TaskQueues(Intended, nodes, numOps, nodeDraw, n)[t] == TaskQueue(Intended, nodes, numOps, nodeDraw, t)
         && TaskQueues(Intended, nodes, numOps, nodeDraw, n)[t][0]
         == Input(Message(TaskNew(BeginTaskId + t, OpIds(numOps)), nodes[nodeDraw(t)], nodes[nodeDraw(t)]))
  {
    TaskQueuesAt(Intended, nodes, numOps, nodeDraw, n, t);
    PickReachesAll(|nodes|, nodeDraw(t));
    TestMessagesLayout(nodes[nodeDraw(t)], nodes[nodeDraw(t)], BeginTaskId + t, numOps);
  }

  /** The closing actions: one input `TaskStop` per node, in node order, from the node to itself. */
  function Stops(nodes: seq<Nid>): (r: seq<ActionMessage>)
    ensures |r| == |nodes|
  {
    if nodes == [] then [] else Stops(nodes[..|nodes| - 1]) + [Input(Message(TaskStop, nodes[|nodes| - 1], nodes[|nodes| - 1]))]
  }

  /** Position k of the closing actions is node k's stop, from the node to itself. */
  lemma {:induction false} StopsAt(nodes: seq<Nid>, k: nat)
    requires k < |nodes|
    ensures Stops(nodes)[k] == Input(Message(TaskStop, nodes[k], nodes[k]))
  {
    if k < |nodes| - 1 {
      StopsAt(nodes[..|nodes| - 1], k);
    }
  }

  /** The total number of actions in a list of queues. */
  function TotalLen<T>(qs: seq<seq<T>>): nat {
    if qs == [] then 0 else TotalLen(qs[..|qs| - 1]) + |qs[|qs| - 1]|
  }

  /** The elements of xs at the positions `owner` assigns to queue t, in order. */
  function Project<T>(xs: seq<T>, owner: seq<nat>, t: nat): seq<T>
    requires |xs| == |owner|
  {
    if xs == [] then []
    else Project(xs[..|xs| - 1], owner[..|owner| - 1], t) + (if owner[|owner| - 1] == t then [xs[|xs| - 1]] else [])
  }

  /**
    xs interleaves the queues: each position of xs belongs to one queue, and
    the positions of each queue hold exactly that queue, in its order. So
    every queued action appears exactly once and each queue keeps its order.
   */
  ghost predicate Interleaving<T>(xs: seq<T>, qs: seq<seq<T>>) {
    exists owner: seq<nat> ::
      && |owner| == |xs|
      && (forall j :: 0 <= j < |owner| ==> owner[j] < |qs|)
      && (forall t :: 0 <= t < |qs| ==> Project(xs, owner, t) == qs[t])
  }

  lemma ProjectSnoc<T>(xs: seq<T>, owner: seq<nat>, x: T, q: nat, t: nat)
    requires |xs| == |owner|
    ensures Project(xs + [x], owner + [q], t) == Project(xs, owner, t) + (if q == t then [x] else [])
  {
    assert (xs + [x])[..|xs|] == xs;
    assert (owner + [q])[..|owner|] == owner;
  }

  /** Removing the head of one non-empty queue removes one action from the total. */
  lemma {:induction false} TotalLenPop<T>(qs: seq<seq<T>>, q: nat)
    requires q < |qs| && qs[q] != []
    ensures TotalLen(qs[q := qs[q][1..]]) == TotalLen(qs) - 1
  {
    var last := |qs| - 1;
    if q < last {
      TotalLenPop(qs[..last], q);
      assert qs[q := qs[q][1..]][..last] == qs[..last][q := qs[q][1..]];
    } else {
      assert qs[q := qs[q][1..]][..last] == qs[..last];
    }
  }

  /** A list of queues with no actions left is a list of empty queues. */
  lemma {:induction false} TotalLenZero<T>(qs: seq<seq<T>>)
    requires forall t :: 0 <= t < |qs| ==> qs[t] == []
    ensures TotalLen(qs) == 0
  {
    if qs != [] {
      TotalLenZero(qs[..|qs| - 1]);
    }
  }

  /** The number of task actions: numOps + 2 for each of numTx tasks. */
  function TaskActions(numTx: nat, numOps: nat): nat {
    if numTx == 0 then 0 else TaskActions(numTx - 1, numOps) + numOps + 2
  }

  lemma {:induction false} TaskActionsIsProduct(numTx: nat, numOps: nat)
    ensures TaskActions(numTx, numOps) == numTx * (numOps + 2)
  {
    if numTx > 0 {
      TaskActionsIsProduct(numTx - 1, numOps);
      assert (numTx - 1) * (numOps + 2) + numOps + 2 == numTx * (numOps + 2);
    }
  }

  /** n task queues hold numOps + 2 actions each. */
  lemma {:induction false} TotalLenTasks(range: DrawRange, nodes: seq<Nid>, numOps: nat, nodeDraw: nat -> nat, n: nat)
    requires |nodes| > Slack(range)
    ensures TotalLen(TaskQueues(range, nodes, numOps, nodeDraw, n)) == TaskActions(n, numOps)
  {
    if n > 0 {
      var qs := TaskQueues(range, nodes, numOps, nodeDraw, n);
      var prev := TaskQueues(range, nodes, numOps, nodeDraw, n - 1);
      var last := TaskQueue(range, nodes, numOps, nodeDraw, n - 1);
      assert qs == prev + [last];
      assert qs[..n - 1] == prev;
      assert |last| == numOps + 2;
      TotalLenTasks(range, nodes, numOps, nodeDraw, n - 1);
      assert TotalLen(qs) == TotalLen(prev) + |last|;
      assert TaskActions(n, numOps) == TaskActions(n - 1, numOps) + numOps + 2;
    }
  }

  /** For an index k below 2 * size, k % size wraps at most once. */
  lemma ModWrap(k: nat, size: nat)
    requires 0 < size && k < 2 * size
    ensures k % size == if k < size then k else k - size
  {
  }

  /** Scanning size consecutive positions from any start below size visits every queue. */
  lemma Covers(index: nat, size: nat, q: nat)
    requires index < size && q < size
    ensures exists j :: index <= j < index + size && j % size == q
  {
    var j := if q >= index then q else q + size;
    ModWrap(j, size);
  }

  /**
    The state of the interleaving loop: `ret` holds what was taken so far,
    `owner` says from which queue, and each queue is what is left of its
    original after the part already taken.
   */
  ghost predicate Taken(ret: seq<ActionMessage>, owner: seq<nat>, queues: seq<seq<ActionMessage>>, queues0: seq<seq<ActionMessage>>) {
    && |queues| == |queues0|
    && |owner| == |ret|
    && (forall j :: 0 <= j < |owner| ==> owner[j] < |queues|)
    && (forall t :: 0 <= t < |queues| ==> Project(ret, owner, t) + queues[t] == queues0[t])
    && |ret| + TotalLen(queues) == TotalLen(queues0)
  }

  /** Taking the head of a non-empty queue keeps the loop state. */
  lemma TakeHead(ret: seq<ActionMessage>, owner: seq<nat>, queues: seq<seq<ActionMessage>>, queues0: seq<seq<ActionMessage>>, q: nat)
    requires Taken(ret, owner, queues, queues0)
    requires q < |queues| && queues[q] != []
    ensures Taken(ret + [queues[q][0]], owner + [q], queues[q := queues[q][1..]], queues0)
    ensures TotalLen(queues[q := queues[q][1..]]) < TotalLen(queues)
  {
    var msg := queues[q][0];
    var queues1 := queues[q := queues[q][1..]];
    forall t | 0 <= t < |queues|
      ensures Project(ret + [msg], owner + [q], t) + queues1[t] == queues0[t]
    {
      ProjectSnoc(ret, owner, msg, q, t);
      if t == q {
        assert [msg] + queues[q][1..] == queues[q];
      }
    }
    TotalLenPop(queues, q);
  }

  /** Once every queue is empty, `ret` interleaves the original queues and holds all their actions. */
  lemma AllTaken(ret: seq<ActionMessage>, owner: seq<nat>, queues: seq<seq<ActionMessage>>, queues0: seq<seq<ActionMessage>>)
    requires Taken(ret, owner, queues, queues0)
    requires forall t :: 0 <= t < |queues| ==> queues[t] == []
    ensures Interleaving(ret, queues0)
    ensures |ret| == TotalLen(queues0)
  {
    TotalLenZero(queues);
    forall t | 0 <= t < |queues0|
      ensures Project(ret, owner, t) == queues0[t]
    {
      assert Project(ret, owner, t) + queues[t] == Project(ret, owner, t);
    }
  }

  /**
    The interleaving loop of `generate_all_test_message`: each round starts
    at a drawn queue and scans the queues cyclically from there, taking the
    head of the first non-empty one; a round that finds every queue empty
    ends the loop. When the draw's range is empty (no queue, or a single
    queue with the code's own range) the first round panics.
   */
  method Interleave(range: DrawRange, queues0: seq<seq<ActionMessage>>, startDraw: nat -> nat) returns (r: Res<seq<ActionMessage>>)
    ensures r.Err? <==> |queues0| <= Slack(range)
    ensures r.Err? ==> r.error == Panic
    ensures r.Ok? ==> Interleaving(r.value, queues0) && |r.value| == TotalLen(queues0)
  {
    var queues := queues0;
    var size := |queues|;
    if size <= Slack(range) {
      // the first round's draw has an empty range
      return Err(Panic);
    }
    var ret := [];
    ghost var owner: seq<nat> := [];
    var round := 0;
    while true
      invariant size == |queues0|
      invariant Taken(ret, owner, queues, queues0)
      decreases TotalLen(queues)
    {
      var index := Draw(range, startDraw(round), size).value;
      round := round + 1;
      var numEnd := 0;
      var k := index;
      while k < index + size
        invariant index <= k <= index + size
        invariant numEnd == k - index
        invariant forall j :: index <= j < k ==> queues[j % size] == []
      {
        var q := k % size;
        if queues[q] != [] {
          TakeHead(ret, owner, queues, queues0, q);
          owner := owner + [q];
          ret := ret + [queues[q][0]];
          queues := queues[q := queues[q][1..]];
          break;
        }
        numEnd := numEnd + 1;
        k := k + 1;
      }
      if numEnd == size {
        forall t | 0 <= t < size
          ensures queues[t] == []
        {
          Covers(index, size, t);
        }
        AllTaken(ret, owner, queues, queues0);
        break;
      }
    }
    r := Ok(ret);
  }

  /** One more node, one more stop at the end. */
  lemma StopsSnoc(nodes: seq<Nid>, n: nat)
    requires n < |nodes|
    ensures Stops(nodes[..n + 1]) == Stops(nodes[..n]) + [Input(Message(TaskStop, nodes[n], nodes[n]))]
  {
    assert nodes[..n + 1][..n] == nodes[..n];
  }

  /** The task part and the stop part of the generated list, told apart by position. */
  lemma AllMessagesSplit(range: DrawRange, interleaved: seq<ActionMessage>, nodes: seq<Nid>, numTx: nat, numOps: nat, nodeDraw: nat -> nat)
    requires |nodes| > Slack(range)
    requires Interleaving(interleaved, TaskQueues(range, nodes, numOps, nodeDraw, numTx))
    requires |interleaved| == TotalLen(TaskQueues(range, nodes, numOps, nodeDraw, numTx))
    ensures |interleaved + Stops(nodes)| == TaskActions(numTx, numOps) + |nodes|
    ensures Interleaving((interleaved + Stops(nodes))[..TaskActions(numTx, numOps)], TaskQueues(range, nodes, numOps, nodeDraw, numTx))
    ensures (interleaved + Stops(nodes))[TaskActions(numTx, numOps)..] == Stops(nodes)
  {
    TotalLenTasks(range, nodes, numOps, nodeDraw, numTx);
    var all := interleaved + Stops(nodes);
    assert all[..|interleaved|] == interleaved;
    assert all[|interleaved|..] == Stops(nodes);
  }

  /** The closing loop of `generate_all_test_message`: one stop per node, appended in node order. */
  method PushStops(ret0: seq<ActionMessage>, nodes: seq<Nid>) returns (ret: seq<ActionMessage>)
    ensures ret == ret0 + Stops(nodes)
  {
    ret := ret0;
    var n := 0;
    while n < |nodes|
      invariant n <= |nodes|
      invariant ret == ret0 + Stops(nodes[..n])
    {
      StopsSnoc(nodes, n);
      ret := ret + [Input(Message(TaskStop, nodes[n], nodes[n]))];
      n := n + 1;
    }
    assert nodes[..n] == nodes;
  }

  /**
    The task loop of `generate_all_test_message`: task i gets id
    BeginTaskId + i and both ends on the node its draw picks. With a task
    to place and too few nodes for the draw's range (none, or one with the
    code's own range), the first draw panics.
   */
  method BuildTaskQueues(range: DrawRange, nodes: seq<Nid>, numTx: nat, numOps: nat, nodeDraw: nat -> nat)
    returns (r: Res<seq<seq<ActionMessage>>>)
    ensures r.Err? <==> numTx > 0 && |nodes| <= Slack(range)
    ensures r.Err? ==> r.error == Panic
    ensures r.Ok? && |nodes| > Slack(range) ==> r.value == TaskQueues(range, nodes, numOps, nodeDraw, numTx)
    ensures r.Ok? && |nodes| <= Slack(range) ==> r.value == []
  {
    if |nodes| <= Slack(range) {
      // the first task's node draw has an empty range
      return if numTx > 0 then Err(Panic) else Ok([]);
    }
    var queues: seq<seq<ActionMessage>> := [];
    var i := 0;
    while i < numTx
      invariant i <= numTx
      invariant queues == TaskQueues(range, nodes, numOps, nodeDraw, i)
    {
      var id := i + BeginTaskId;
      var index := Draw(range, nodeDraw(i), |nodes|).value;
      var from, to := nodes[index], nodes[index];
      var v := GenerateTestMessage(from, to, id, numOps);
      assert v == TaskQueue(range, nodes, numOps, nodeDraw, i);
      queues := queues + [v];
      i := i + 1;
    }
    r := Ok(queues);
  }

  /**
    `generate_all_test_message`: build each task's actions on the node its
    draw picks (from and to are the same node: the `nodes.len() >= 1` branch
    is always taken), interleave them, then add one stop per node. With
    `range` AsWritten this is the code as it stands, which panics when there
    are fewer than two tasks or fewer than two nodes and never uses the last
    node; with `range` Intended the draws cover every index and only an
    empty list of tasks or of nodes panics.
   */
  method GenerateAllTestMessage(
    range: DrawRange, nodes: seq<Nid>, numTx: nat, numOps: nat, nodeDraw: nat -> nat, startDraw: nat -> nat)
    returns (r: Res<seq<ActionMessage>>)
    ensures r.Err? <==> numTx <= Slack(range) || |nodes| <= Slack(range)
    ensures r.Err? ==> r.error == Panic
    ensures r.Ok? ==> |r.value| == TaskActions(numTx, numOps) + |nodes|
    ensures r.Ok? ==>
              Interleaving(r.value[..TaskActions(numTx, numOps)], TaskQueues(range, nodes, numOps, nodeDraw, numTx))
    ensures r.Ok? ==> r.value[TaskActions(numTx, numOps)..] == Stops(nodes)
  {
    var built := BuildTaskQueues(range, nodes, numTx, numOps, nodeDraw);
    if built.Err? {
      return Err(built.error);
    }
    var interleaved := Interleave(range, built.value, startDraw);
    if interleaved.Err? {
      return Err(interleaved.error);
    }
    var ret := PushStops(interleaved.value, nodes);
    AllMessagesSplit(range, interleaved.value, nodes, numTx, numOps, nodeDraw);
    r := Ok(ret);
  }

  // ---------------------------------------------------------------------
  // ActionInputStub
  // ---------------------------------------------------------------------

  /**
    `ActionInputStub`: the generated actions, handed to the player one at a
    time. `text` is what `trace_text` returns, here the whole list (its JSON
    encoding is not part of this model).
   */
  class ActionInputStub {
    const text: seq<ActionMessage>
    var queue: seq<ActionMessage>

    /** The queue is always what is left of the original list. */
    ghost predicate Valid()
      reads this
    {
      |queue| <= |text| && queue == text[|text| - |queue|..]
    }

    constructor (actions: seq<ActionMessage>)
      ensures Valid() && text == actions && queue == actions
    {
      text := actions;
      queue := actions;
    }

    /** `next`: the oldest action left, or `EOF` once there is none. */
    method Next() returns (r: Res<ActionMessage>)
      requires Valid()
      modifies this
      ensures Valid()
      ensures (r, queue) == PopFront(old(queue))
    {
      if queue == [] {
        r := Err(Eof);
      } else {
        r := Ok(queue[0]);
        queue := queue[1..];
      }
    }
  }

  /** One `next` on a queue: its result and the queue left. */
  function PopFront(q: seq<ActionMessage>): (p: (Res<ActionMessage>, seq<ActionMessage>))
    ensures q == [] ==> p == (Err(Eof), q)
    ensures q != [] ==> p.0 == Ok(q[0]) && [q[0]] + p.1 == q
  {
    if q == [] then (Err(Eof), q) else (Ok(q[0]), q[1..])
  }

  /** The results of n successive `next` calls on a queue. */
  function Responses(q: seq<ActionMessage>, n: nat): seq<Res<ActionMessage>> {
    if n == 0 then [] else [PopFront(q).0] + Responses(PopFront(q).1, n - 1)
  }

  /** The stub is a FIFO: the k-th call returns the k-th action, and every call after the last returns `EOF`. */
  lemma {:induction false} ResponsesInOrder(q: seq<ActionMessage>, n: nat)
    ensures |Responses(q, n)| == n
    ensures forall k :: 0 <= k < n ==> Responses(q, n)[k] == if k < |q| then Ok(q[k]) else Err(Eof)
  {
    if n > 0 {
      ResponsesInOrder(PopFront(q).1, n - 1);
      if q == [] {
        assert forall k :: 1 <= k < n ==> Responses(q, n)[k] == Responses(q, n - 1)[k - 1];
      } else {
        assert forall k :: 1 <= k < |q| ==> q[1..][k - 1] == q[k];
      }
    }
  }

  // ---------------------------------------------------------------------
  // History
  // ---------------------------------------------------------------------

  /** `History`: the actions the test nodes observed, in the order they were recorded. */
  class History {
    var history: seq<ActionMessage>

    constructor ()
      ensures history == []
    {
      history := [];
    }

    /**
      `add_action_to_history`: append at the end, one step of `Recorded`,
      so that calls made in turn leave what `RecordedInOrder` states.
     */
    method AddActionToHistory(action: ActionMessage)
      modifies this
      ensures history == old(history) + [action]
      ensures history == Recorded(old(history), [action])
    {
      history := history + [action];
    }

    /**
      `check_history`: a length mismatch panics, and so does the first
      position whose actions differ; otherwise it succeeds.
     */
    method CheckHistory(expected: seq<ActionMessage>) returns (r: Res<()>)
      ensures r.Ok? <==> |history| == |expected| && forall i :: 0 <= i < |expected| ==> expected[i] == history[i]
      ensures r.Ok? <==> history == expected
      ensures r.Err? ==> r.error == Panic
    {
      if |history| != |expected| {
        return Err(Panic);
      }
      var i := 0;
      while i < |expected|
        invariant i <= |expected|
        invariant forall j :: 0 <= j < i ==> expected[j] == history[j]
      {
        if expected[i] != history[i] {
          return Err(Panic);
        }
        i := i + 1;
      }
      r := Ok(());
    }
  }

  /** Recording actions one by one leaves exactly those actions, in order, after what was there. */
  lemma {:induction false} RecordedInOrder(h: seq<ActionMessage>, acts: seq<ActionMessage>)
    ensures Recorded(h, acts) == h + acts
    decreases |acts|
  {
    if acts != [] {
      RecordedInOrder(h + [acts[0]], acts[1..]);
      assert h + [acts[0]] + acts[1..] == h + acts;
    }
  }

  /** The history after `add_action_to_history` for each action, in order. */
  function Recorded(h: seq<ActionMessage>, acts: seq<ActionMessage>): seq<ActionMessage>
    decreases |acts|
  {
    if acts == [] then h else Recorded(h + [acts[0]], acts[1..])
  }
}
