/**
  The rendezvous table of src/dtm/action_reorder.rs: a map from an action
  to its channel and a reference count. `add_action` (the sender) and
  `wait_action` (the receiver) of the same action meet on the channel the
  table holds for it.

  A channel is named by its creation index: `io_event_channel` is called
  exactly when an action enters the table and nothing ever leaves it, so
  the k-th channel created belongs to the k-th action inserted and the
  next one is numbered by the table's size. The count is the `u64` behind
  the entry's mutex; every operation runs as one step, as the table lock
  makes it (see "Left out" for the two-lock interleavings).
 */
module ActionReorder {

  import opened Results

  /** A channel, named by the order in which the table created it. */
  type Channel = nat

  /** A table entry: the action's channel and its reference count. */
  datatype Entry = Entry(channel: Channel, refs: nat)

  /** What `wait_action`'s `select!` settles on. */
  datatype WaitOutcome<A> =
    | Received(message: Res<A>)   // `r.recv()` won: the channel's result, decoded back to an action
    | TimedOut                    // the `sleep` won

  /** One public call on the table, with the outcome the outside world chose. */
  datatype Op<A> =
    | Add(action: A, sent: bool)         // `add_action`; `sent` is whether `s.send` succeeded
    | Wait(action: A, timedOut: bool)    // `wait_action`; `timedOut` is whether the sleep won

  /** Channels are below the table size and no two actions share one. */
  ghost predicate Channels<A>(t: map<A, Entry>) {
    && (forall a :: a in t ==> t[a].channel < |t|)
    && (forall a, b :: a in t && b in t && a != b ==> t[a].channel != t[b].channel)
  }

  /**
    `get_channel` on the table: an absent action enters with a new channel
    and count 1; a present one keeps its channel and gains 1.
   */
  function Acquire<A>(t: map<A, Entry>, a: A): (r: map<A, Entry>)
    ensures r.Keys == t.Keys + {a}
    ensures a !in t ==> r[a] == Entry(|t|, 1)
    ensures a in t ==> r[a] == Entry(t[a].channel, t[a].refs + 1)
    ensures forall b :: b in t && b != a ==> r[b] == t[b]
  {
    if a in t then t[a := Entry(t[a].channel, t[a].refs + 1)] else t[a := Entry(|t|, 1)]
  }

  /**
    `dec_ref_num` on the table: a present action loses 1 unless its count is
    already 0; an absent action changes nothing.
   */
  function Release<A>(t: map<A, Entry>, a: A): (r: map<A, Entry>)
    ensures r.Keys == t.Keys
    ensures a in t ==> r[a] == Entry(t[a].channel, if t[a].refs >= 1 then t[a].refs - 1 else 0)
    ensures forall b :: b in t && b != a ==> r[b] == t[b]
  {
    if a in t && t[a].refs >= 1 then t[a := Entry(t[a].channel, t[a].refs - 1)] else t
  }

  /**
    The table after one public call: `add_action` takes the channel and
    gives its reference back unless the send fails (the `?` returns first);
    `wait_action` gives it back when the receive wins, error or not, and
    keeps it when the timeout wins.
   */
  function Apply<A>(t: map<A, Entry>, op: Op<A>): map<A, Entry> {
    match op
    case Add(a, sent) => if sent then Release(Acquire(t, a), a) else Acquire(t, a)
    case Wait(a, timedOut) => if timedOut then Acquire(t, a) else Release(Acquire(t, a), a)
  }

  /** The table after a sequence of calls, in order. */
  function Replay<A>(t: map<A, Entry>, ops: seq<Op<A>>): map<A, Entry>
    decreases |ops|
  {
    if ops == [] then t else Replay(Apply(t, ops[0]), ops[1..])
  }

  /** An action's count, 0 when it is absent. */
  function Refs<A>(t: map<A, Entry>, a: A): nat {
    if a in t then t[a].refs else 0
  }

  /** The calls on `a` that keep a reference: failed sends and timed-out waits. */
  function Unreleased<A(==)>(ops: seq<Op<A>>, a: A): nat {
    if ops == [] then 0
    else
      var kept := match ops[0]
                  case Add(b, sent) => b == a && !sent
                  case Wait(b, timedOut) => b == a && timedOut;
      (if kept then 1 else 0) + Unreleased(ops[1..], a)
  }

  lemma AcquireKeepsChannels<A>(t: map<A, Entry>, a: A)
    requires Channels(t)
    ensures Channels(Acquire(t, a))
  {
    if a !in t {
      assert |Acquire(t, a)| == |t| + 1;
    }
  }

  lemma ReleaseKeepsChannels<A>(t: map<A, Entry>, a: A)
    requires Channels(t)
    ensures Channels(Release(t, a))
  {
    assert |Release(t, a)| == |t| by {
      assert Release(t, a).Keys == t.Keys;
    }
  }

  /** Every call keeps the channels distinct and only touches its own action's entry. */
  lemma ApplyFrame<A>(t: map<A, Entry>, op: Op<A>)
    requires Channels(t)
    ensures Channels(Apply(t, op))
    ensures Apply(t, op).Keys == t.Keys + {op.action}
    ensures forall b :: b in t && b != op.action ==> Apply(t, op)[b] == t[b]
    ensures op.action in t ==> Apply(t, op)[op.action].channel == t[op.action].channel
  {
    AcquireKeepsChannels(t, op.action);
    ReleaseKeepsChannels(Acquire(t, op.action), op.action);
  }

  /** Taking a reference and giving it back restores a present entry exactly. */
  lemma AcquireReleaseRestores<A>(t: map<A, Entry>, a: A)
    requires a in t
    ensures Release(Acquire(t, a), a) == t
  {
    var r := Release(Acquire(t, a), a);
    assert r.Keys == t.Keys;
    assert r[a] == t[a];
  }

  /**
    `add_action` that sends: on a fresh action the entry stays, with count
    0; on an existing action nothing changes.
   */
  lemma AddNetEffect<A>(t: map<A, Entry>, a: A)
    ensures a !in t ==> Apply(t, Add(a, true)) == t[a := Entry(|t|, 0)]
    ensures a in t ==> Apply(t, Add(a, true)) == t
  {
    if a in t {
      AcquireReleaseRestores(t, a);
    } else {
      assert Apply(t, Add(a, true)).Keys == t[a := Entry(|t|, 0)].Keys;
    }
  }

  /**
    `wait_action`: the receive path leaves an existing entry as it was; the
    timeout path leaves the count one higher.
   */
  lemma WaitNetEffect<A>(t: map<A, Entry>, a: A)
    ensures a in t ==> Apply(t, Wait(a, false)) == t
    ensures Refs(Apply(t, Wait(a, false)), a) == Refs(t, a)
    ensures Refs(Apply(t, Wait(a, true)), a) == Refs(t, a) + 1
  {
    if a in t {
      AcquireReleaseRestores(t, a);
    }
  }

  /**
    Over any sequence of calls, an action's count grows by exactly the
    number of its failed sends and timed-out waits; entries never leave the
    table and keep their channels, and the channels stay distinct.
   */
  lemma {:induction false} ReplayRefs<A>(t: map<A, Entry>, ops: seq<Op<A>>, a: A)
    requires Channels(t)
    ensures Refs(Replay(t, ops), a) == Refs(t, a) + Unreleased(ops, a)
    ensures t.Keys <= Replay(t, ops).Keys
    ensures a in t ==> Replay(t, ops)[a].channel == t[a].channel
    ensures Channels(Replay(t, ops))
    decreases |ops|
  {
    if ops != [] {
      var op := ops[0];
      var t1 := Apply(t, op);
      ApplyFrame(t, op);
      ReplayRefs(t1, ops[1..], a);
      if op.action == a {
        match op
        case Add(_, sent) =>
          if sent { AddNetEffect(t, a); } else { assert Refs(t1, a) == Refs(t, a) + 1; }
        case Wait(_, timedOut) =>
          WaitNetEffect(t, a);
      } else {
        assert Refs(t1, a) == Refs(t, a);
      }
    }
  }

  /**
    `ActionReorder`, reduced to its table. The timeout only decides which
    `WaitOutcome` happens and is not part of this model.
   */
  class Reorder<A(==)> {
    var entries: map<A, Entry>

    ghost predicate Valid()
      reads this
    {
      Channels(entries)
    }

    /** `ActionReorder::new`: an empty table. */
    constructor ()
      ensures Valid() && entries == map[]
    {
      entries := map[];
    }

    /** `get_channel`: the action's channel, created on first use, and one more reference. */
    method GetChannel(a: A) returns (ch: Channel)
      requires Valid()
      modifies this
      ensures Valid()
      ensures entries == Acquire(old(entries), a)
      ensures ch == entries[a].channel
      ensures a in old(entries) ==> ch == old(entries)[a].channel
      ensures a !in old(entries) ==> ch == |old(entries)|
    {
      ghost var t := entries;
      AcquireKeepsChannels(t, a);
      if a in entries {
        ch := entries[a].channel;
        entries := entries[a := Entry(ch, entries[a].refs + 1)];
      } else {
        ch := |entries|;
        entries := entries[a := Entry(ch, 1)];
      }
      assert entries == Acquire(t, a);
    }

    /** `dec_ref_num`: one reference fewer, never below 0; an absent action is ignored. */
    method DecRefNum(a: A)
      requires Valid()
      modifies this
      ensures Valid()
      ensures entries == Release(old(entries), a)
    {
      ghost var t := entries;
      ReleaseKeepsChannels(t, a);
      if a in entries {
        var n := entries[a].refs;
        if n >= 1 {
          entries := entries[a := Entry(entries[a].channel, n - 1)];
        }
      }
      assert entries == Release(t, a);
    }

    /**
      `add_action`: take the channel, send the action (`send` is the
      outcome), and give the reference back. A failed send returns its
      error before the reference is given back.
     */
    method AddAction(a: A, send: Res<()>) returns (r: Res<()>)
      requires Valid()
      modifies this
      ensures Valid()
      ensures entries == Apply(old(entries), Add(a, send.Ok?))
      ensures r.Ok? <==> send.Ok?
      ensures send.Err? ==> r == send
    {
      var _ := GetChannel(a);
      if send.Err? {
        return Err(send.error);
      }
      DecRefNum(a);
      r := Ok(());
    }

    /**
      `wait_action`: take the channel and wait. When the receive wins, the
      reference is given back first; then a receive error is returned, and
      an action other than the awaited one fails the `assert!` (a panic).
      When the timeout wins, the reference is kept and the result is false.
     */
    method WaitAction(a: A, outcome: WaitOutcome<A>) returns (r: Res<bool>)
      requires Valid()
      modifies this
      ensures Valid()
      ensures entries == Apply(old(entries), Wait(a, outcome.TimedOut?))
      ensures outcome.TimedOut? ==> r == Ok(false)
      ensures outcome.Received? && outcome.message.Err? ==> r == Err(outcome.message.error)
      ensures outcome.Received? && outcome.message.Ok? ==>
                r == if outcome.message.value == a then Ok(true) else Err(Panic)
    {
      var _ := GetChannel(a);
      match outcome
      case TimedOut =>
        r := Ok(false);
      case Received(message) =>
        DecRefNum(a);
        if message.Err? {
          return Err(message.error);
        }
        if message.value != a {
          return Err(Panic);
        }
        r := Ok(true);
    }
  }
}
