/**
  The row readers of src/trace/to_action.rs. The SQLite query
  `select json_string from state order by json_string` becomes the
  sequence of rows it yields, and turning one row into a JSON value
  (reading the column, parsing it, `format_kind_object`) becomes the
  function `convert`. A callback becomes a function from its argument to
  a `Call`: what it did to the outside world, in order, and what it
  returned.
 */
module ToAction {

  import opened Results

  type U64 = x: int | 0 <= x < 0x1_0000_0000_0000_0000

  /** What one callback invocation did (`effects`, in order) and what it returned. */
  datatype Call<E> = Call(effects: seq<E>, result: Res<()>)

  function Flatten<T>(xss: seq<seq<T>>): seq<T> {
    if xss == [] then [] else xss[0] + Flatten(xss[1..])
  }

  lemma {:induction false} FlattenAppend<T>(xss: seq<seq<T>>, xs: seq<T>)
    ensures Flatten(xss + [xs]) == Flatten(xss) + xs
  {
    if xss != [] {
      assert (xss + [xs])[1..] == xss[1..] + [xs];
      FlattenAppend(xss[1..], xs);
    }
  }

  /** Every row converts to a value. */
  predicate AllConvert<R, V>(rows: seq<R>, convert: R -> Res<V>) {
    forall i :: 0 <= i < |rows| ==> convert(rows[i]).Ok?
  }

  /** The converted rows, in row order. */
  function Values<R, V>(rows: seq<R>, convert: R -> Res<V>): (vs: seq<V>)
    requires AllConvert(rows, convert)
    ensures |vs| == |rows|
  {
    if rows == [] then [] else [convert(rows[0]).value] + Values(rows[1..], convert)
  }

  /** Value i is what row i converts to. */
  lemma {:induction false} ValuesAt<R, V>(rows: seq<R>, convert: R -> Res<V>, i: nat)
    requires AllConvert(rows, convert) && i < |rows|
    ensures convert(rows[i]) == Ok(Values(rows, convert)[i])
  {
    if i > 0 {
      ValuesAt(rows[1..], convert, i - 1);
    }
  }

  /** The effects of calling `handle` on each argument in turn. */
  function EffectsOf<X, E>(xs: seq<X>, handle: X -> Call<E>): seq<E> {
    if xs == [] then [] else handle(xs[0]).effects + EffectsOf(xs[1..], handle)
  }

  lemma {:induction false} EffectsOfAppend<X, E>(xs: seq<X>, x: X, handle: X -> Call<E>)
    ensures EffectsOf(xs + [x], handle) == EffectsOf(xs, handle) + handle(x).effects
  {
    if xs != [] {
      assert (xs + [x])[1..] == xs[1..] + [x];
      EffectsOfAppend(xs[1..], x, handle);
    }
  }

  // ---------------------------------------------------------------------
  // read_actions
  // ---------------------------------------------------------------------

  /**
    `read_actions`: convert the rows one at a time and hand each value to the
    callback, stopping at the first conversion or callback error. `handled`
    lists the values the callback was called with.
   */
  method ReadActions<R, V, E>(rows: seq<R>, convert: R -> Res<V>, handle: V -> Call<E>)
    returns (handled: seq<V>, effects: seq<E>, r: Res<()>)
    ensures |handled| <= |rows|
    ensures forall j :: 0 <= j < |handled| ==> convert(rows[j]) == Ok(handled[j])
    ensures forall j :: 0 <= j < |handled| - 1 ==> handle(handled[j]).result.Ok?
    ensures effects == EffectsOf(handled, handle)
    ensures r.Ok? <==> |handled| == |rows| && forall j :: 0 <= j < |handled| ==> handle(handled[j]).result.Ok?
    ensures r.Err? ==>
              if |handled| > 0 && handle(handled[|handled| - 1]).result.Err?
              then r == handle(handled[|handled| - 1]).result
              else |handled| < |rows| && convert(rows[|handled|]).Err? && r == Err(convert(rows[|handled|]).error)
  {
    handled, effects := [], [];
    var i := 0;
    while i < |rows|
      invariant i == |handled| <= |rows|
      invariant forall j :: 0 <= j < i ==> convert(rows[j]) == Ok(handled[j]) && handle(handled[j]).result.Ok?
      invariant effects == EffectsOf(handled, handle)
    {
      var value := convert(rows[i]);
      if value.Err? {
        r := Err(value.error);
        return;
      }
      var call := handle(value.value);
      EffectsOfAppend(handled, value.value, handle);
      handled := handled + [value.value];
      effects := effects + call.effects;
      if call.result.Err? {
        r := call.result;
        return;
      }
      i := i + 1;
    }
    r := Ok(());
  }

  // ---------------------------------------------------------------------
  // read_action_batch
  // ---------------------------------------------------------------------

  /**
    The size at which a batch is flushed. The row is pushed before the test
    `batch.len() >= batch_rows`, so a `batch_rows` of 0 flushes every row.
   */
  function BatchSize(batchRows: U64): (m: nat)
    ensures m >= 1
    ensures batchRows >= 1 ==> m == batchRows
    ensures batchRows == 0 ==> m == 1
  {
    if batchRows == 0 then 1 else batchRows
  }

  /** A sequence cut into consecutive pieces of m elements, the last one possibly shorter. */
  function Chunks<T>(s: seq<T>, m: nat): seq<seq<T>>
    requires m >= 1
    decreases |s|
  {
    if s == [] then []
    else if |s| <= m then [s]
    else [s[..m]] + Chunks(s[m..], m)
  }

  /** The pieces concatenate back to the sequence. */
  lemma {:induction false} FlattenChunks<T>(s: seq<T>, m: nat)
    requires m >= 1
    ensures Flatten(Chunks(s, m)) == s
    decreases |s|
  {
    if |s| > m {
      FlattenChunks(s[m..], m);
      assert Chunks(s, m)[1..] == Chunks(s[m..], m);
      assert s == s[..m] + s[m..];
    } else if s != [] {
      assert Chunks(s, m) == [s];
      assert Flatten(Chunks(s, m)[1..]) == [];
    }
  }

  /** Every piece is non-empty and at most m long; all but the last are exactly m long. */
  lemma {:induction false} ChunkSizes<T>(s: seq<T>, m: nat)
    requires m >= 1
    ensures forall k :: 0 <= k < |Chunks(s, m)| ==>
              0 < |Chunks(s, m)[k]| <= m && (k < |Chunks(s, m)| - 1 ==> |Chunks(s, m)[k]| == m)
    decreases |s|
  {
    if |s| > m {
      ChunkSizes(s[m..], m);
      assert forall k :: 1 <= k < |Chunks(s, m)| ==> Chunks(s, m)[k] == Chunks(s[m..], m)[k - 1];
    }
  }

  /** One full piece in front of any rest is the first piece. */
  lemma ChunksCons<T>(x: seq<T>, rest: seq<T>, m: nat)
    requires m >= 1 && |x| == m
    ensures Chunks(x + rest, m) == [x] + Chunks(rest, m)
  {
    var s := x + rest;
    assert s[..m] == x && s[m..] == rest;
    if rest == [] {
      assert s == x;
    }
  }

  /** Full pieces in front of any rest stay pieces of the chunking. */
  lemma {:induction false} ChunksAfterFull<T>(xss: seq<seq<T>>, b: seq<T>, m: nat)
    requires m >= 1
    requires forall k :: 0 <= k < |xss| ==> |xss[k]| == m
    ensures Chunks(Flatten(xss) + b, m) == xss + Chunks(b, m)
  {
    if xss == [] {
      assert Flatten(xss) + b == b;
    } else {
      ChunksAfterFull(xss[1..], b, m);
      assert Flatten(xss) + b == xss[0] + (Flatten(xss[1..]) + b);
      ChunksCons(xss[0], Flatten(xss[1..]) + b, m);
      assert xss == [xss[0]] + xss[1..];
    }
  }

  lemma AllConvertSlice<R, V>(rows: seq<R>, lo: nat, hi: nat, convert: R -> Res<V>)
    requires lo <= hi <= |rows| && AllConvert(rows, convert)
    ensures AllConvert(rows[lo..hi], convert)
  {
    forall j | 0 <= j < hi - lo
      ensures convert(rows[lo..hi][j]).Ok?
    {
      assert rows[lo..hi][j] == rows[lo + j];
    }
  }

  lemma {:induction false} ValuesSplit<R, V>(rows: seq<R>, i: nat, convert: R -> Res<V>)
    requires i <= |rows| && AllConvert(rows, convert)
    ensures AllConvert(rows[..i], convert) && AllConvert(rows[i..], convert)
    ensures Values(rows, convert) == Values(rows[..i], convert) + Values(rows[i..], convert)
  {
    AllConvertSlice(rows, 0, i, convert);
    AllConvertSlice(rows, i, |rows|, convert);
    assert rows[i..] == rows[i..|rows|];
    if i == 0 {
      assert rows[..0] == [] && rows[0..] == rows;
    } else {
      var tail := rows[1..];
      AllConvertSlice(rows, 1, |rows|, convert);
      assert tail == rows[1..|rows|];
      ValuesSplit(tail, i - 1, convert);
      var head := rows[..i];
      assert head[1..] == tail[..i - 1] && head[0] == rows[0];
      assert tail[i - 1..] == rows[i..];
      assert Values(head, convert) == [convert(rows[0]).value] + Values(tail[..i - 1], convert);
      assert Values(rows, convert) == [convert(rows[0]).value] + Values(tail, convert);
    }
  }

  /** A piece after full pieces, full itself or followed by nothing, is a piece of the chunking. */
  lemma ChunkAt<T>(xss: seq<seq<T>>, c: seq<T>, rest: seq<T>, m: nat)
    requires m >= 1
    requires forall k :: 0 <= k < |xss| ==> |xss[k]| == m
    requires 0 < |c| <= m && (|c| < m ==> rest == [])
    ensures |xss| < |Chunks(Flatten(xss) + c + rest, m)| && Chunks(Flatten(xss) + c + rest, m)[|xss|] == c
  {
    assert Flatten(xss) + c + rest == Flatten(xss) + (c + rest);
    ChunksAfterFull(xss, c + rest, m);
    if |c| < m {
      assert c + rest == c;
    } else {
      assert (c + rest)[..m] == c;
    }
  }

  /** `vs` are the values of the first |vs| rows, in order. */
  ghost predicate ConvertedPrefix<R, V>(rows: seq<R>, convert: R -> Res<V>, vs: seq<V>) {
    |vs| <= |rows| && forall j :: 0 <= j < |vs| ==> convert(rows[j]) == Ok(vs[j])
  }

  lemma ConvertedPrefixShorter<R, V>(rows: seq<R>, convert: R -> Res<V>, p: seq<V>, q: seq<V>)
    requires ConvertedPrefix(rows, convert, p + q)
    ensures ConvertedPrefix(rows, convert, p)
  {
    assert forall j :: 0 <= j < |p| ==> (p + q)[j] == p[j];
  }

  lemma ConvertedPrefixSnoc<R, V>(rows: seq<R>, convert: R -> Res<V>, vs: seq<V>)
    requires ConvertedPrefix(rows, convert, vs) && |vs| < |rows| && convert(rows[|vs|]).Ok?
    ensures ConvertedPrefix(rows, convert, vs + [convert(rows[|vs|]).value])
  {
  }

  lemma ConvertedAll<R, V>(rows: seq<R>, convert: R -> Res<V>, vs: seq<V>)
    requires ConvertedPrefix(rows, convert, vs) && |vs| == |rows|
    ensures AllConvert(rows, convert) && vs == Values(rows, convert)
  {
    forall j | 0 <= j < |vs|
      ensures vs[j] == Values(rows, convert)[j]
    {
      ValuesAt(rows, convert, j);
    }
  }

  /** Every row converts, and the callback accepts every batch of m values. */
  predicate Accepted<R, V, E>(rows: seq<R>, m: nat, convert: R -> Res<V>, handle: seq<V> -> Call<E>)
    requires m >= 1
  {
    && AllConvert(rows, convert)
    && forall k :: 0 <= k < |Chunks(Values(rows, convert), m)| ==> handle(Chunks(Values(rows, convert), m)[k]).result.Ok?
  }

  /**
    A batch the callback rejects, found after full batches of converted
    rows, is one of the batches of the whole run: the rows are not accepted.
   */
  lemma RejectedAt<R, V, E>(
    rows: seq<R>, m: nat, convert: R -> Res<V>, handle: seq<V> -> Call<E>, xss: seq<seq<V>>, c: seq<V>)
    requires m >= 1
    requires forall k :: 0 <= k < |xss| ==> |xss[k]| == m
    requires 0 < |c| <= m && (|c| < m ==> |Flatten(xss) + c| == |rows|)
    requires ConvertedPrefix(rows, convert, Flatten(xss) + c)
    requires handle(c).result.Err?
    ensures !Accepted(rows, m, convert, handle)
  {
    if AllConvert(rows, convert) {
      var i := |Flatten(xss) + c|;
      ValuesSplit(rows, i, convert);
      assert ConvertedPrefix(rows[..i], convert, Flatten(xss) + c);
      ConvertedAll(rows[..i], convert, Flatten(xss) + c);
      var rest := Values(rows[i..], convert);
      if |c| < m {
        assert rest == [];
      }
      assert Flatten(xss) + c + rest == Values(rows, convert);
      ChunkAt(xss, c, rest, m);
    }
  }

  /** Row j is the first row that does not convert. */
  predicate FirstFailure<R, V>(rows: seq<R>, convert: R -> Res<V>, j: nat) {
    j < |rows| && convert(rows[j]).Err? && forall i :: 0 <= i < j ==> convert(rows[i]).Ok?
  }

  /** Batches the callback accepted, each exactly m values long. */
  predicate FullBatches<V, E>(calls: seq<seq<V>>, m: nat, handle: seq<V> -> Call<E>) {
    forall k :: 0 <= k < |calls| ==> |calls[k]| == m && handle(calls[k]).result.Ok?
  }

  /**
    The shape of a batch run: no empty batch, none over m values, and every
    batch before the last exactly m values long and accepted.
   */
  predicate Batched<V, E>(calls: seq<seq<V>>, m: nat, handle: seq<V> -> Call<E>) {
    forall k :: 0 <= k < |calls| ==>
      0 < |calls[k]| <= m && (k < |calls| - 1 ==> |calls[k]| == m && handle(calls[k]).result.Ok?)
  }

  lemma FullBatchesSnoc<V, E>(calls: seq<seq<V>>, b: seq<V>, m: nat, handle: seq<V> -> Call<E>)
    requires FullBatches(calls, m, handle) && |b| == m && handle(b).result.Ok?
    ensures FullBatches(calls + [b], m, handle)
  {
  }

  lemma BatchedAfterFull<V, E>(calls: seq<seq<V>>, b: seq<V>, m: nat, handle: seq<V> -> Call<E>)
    requires m >= 1 && FullBatches(calls, m, handle) && 0 < |b| <= m
    ensures Batched(calls + [b], m, handle) && Batched(calls, m, handle)
  {
  }

  /** The chunking of full batches followed by the pending one. */
  lemma LastChunk<V, E>(calls: seq<seq<V>>, batch: seq<V>, m: nat, handle: seq<V> -> Call<E>)
    requires m >= 1 && FullBatches(calls, m, handle) && |batch| < m
    ensures Chunks(Flatten(calls) + batch, m) == if batch == [] then calls else calls + [batch]
  {
    ChunksAfterFull(calls, batch, m);
  }

  /**
    What a batch run with batch size m leaves: the batches handed to the
    callback have the shape of `Batched`, hold the converted rows in row
    order, and the callback's effects are theirs, in order. The run
    succeeds exactly when every row converts and every batch is accepted,
    and then the batches are the chunking of all the values into pieces of
    m. A failure is either the rejection of the last batch (which is full
    unless every row was read), or the conversion error of the first row
    that does not convert, which lies in the pending batch after the
    accepted full ones.
   */
  ghost predicate BatchOutcome<R, V, E>(
    rows: seq<R>, m: nat, convert: R -> Res<V>, handle: seq<V> -> Call<E>,
    calls: seq<seq<V>>, effects: seq<E>, r: Res<()>)
    requires m >= 1
  {
    && Batched(calls, m, handle)
    && ConvertedPrefix(rows, convert, Flatten(calls))
    && effects == EffectsOf(calls, handle)
    && (r.Ok? <==> Accepted(rows, m, convert, handle))
    && (r.Ok? ==> calls == Chunks(Values(rows, convert), m))
    && (r.Err? ==>
          (&& |calls| > 0 && handle(calls[|calls| - 1]).result.Err?
           && r == handle(calls[|calls| - 1]).result
           && (|calls[|calls| - 1]| < m ==> |Flatten(calls)| == |rows|)) ||
          (&& FullBatches(calls, m, handle)
           && exists j :: |Flatten(calls)| <= j < |Flatten(calls)| + m && FirstFailure(rows, convert, j)
                            && r == Err(convert(rows[j]).error)))
  }

  /** The exit at a row that does not convert. */
  lemma ConvertErrorOutcome<R, V, E>(
    rows: seq<R>, m: nat, convert: R -> Res<V>, handle: seq<V> -> Call<E>,
    calls: seq<seq<V>>, batch: seq<V>, effects: seq<E>)
    requires m >= 1 && FullBatches(calls, m, handle) && effects == EffectsOf(calls, handle)
    requires ConvertedPrefix(rows, convert, Flatten(calls) + batch) && |batch| < m
    requires |Flatten(calls) + batch| < |rows| && convert(rows[|Flatten(calls) + batch|]).Err?
    ensures BatchOutcome(rows, m, convert, handle, calls, effects, Err(convert(rows[|Flatten(calls) + batch|]).error))
  {
    ConvertedPrefixShorter(rows, convert, Flatten(calls), batch);
    var j := |Flatten(calls) + batch|;
    assert FirstFailure(rows, convert, j);
  }

  /** The exit at a batch the callback rejects. */
  lemma HandlerErrorOutcome<R, V, E>(
    rows: seq<R>, m: nat, convert: R -> Res<V>, handle: seq<V> -> Call<E>,
    calls: seq<seq<V>>, batch: seq<V>, effects: seq<E>)
    requires m >= 1 && FullBatches(calls, m, handle) && effects == EffectsOf(calls, handle)
    requires 0 < |batch| <= m && (|batch| < m ==> |Flatten(calls) + batch| == |rows|)
    requires ConvertedPrefix(rows, convert, Flatten(calls) + batch)
    requires handle(batch).result.Err?
    ensures BatchOutcome(rows, m, convert, handle, calls + [batch], effects + handle(batch).effects, handle(batch).result)
  {
    RejectedAt(rows, m, convert, handle, calls, batch);
    BatchedAfterFull(calls, batch, m, handle);
    FlattenAppend(calls, batch);
    EffectsOfAppend(calls, batch, handle);
  }

  /** The exit once every row is read and every batch accepted, with no rows left over. */
  lemma FinishOutcome<R, V, E>(
    rows: seq<R>, m: nat, convert: R -> Res<V>, handle: seq<V> -> Call<E>,
    calls: seq<seq<V>>, effects: seq<E>)
    requires m >= 1 && FullBatches(calls, m, handle) && effects == EffectsOf(calls, handle)
    requires |Flatten(calls)| == |rows|
    requires ConvertedPrefix(rows, convert, Flatten(calls))
    ensures BatchOutcome(rows, m, convert, handle, calls, effects, Ok(()))
  {
    ConvertedAll(rows, convert, Flatten(calls));
    LastChunk(calls, [], m, handle);
    assert Flatten(calls) + [] == Flatten(calls);
  }

  /** The exit once every row is read and every batch, the shorter last one included, accepted. */
  lemma FinishLastOutcome<R, V, E>(
    rows: seq<R>, m: nat, convert: R -> Res<V>, handle: seq<V> -> Call<E>,
    calls: seq<seq<V>>, batch: seq<V>, effects: seq<E>)
    requires m >= 1 && FullBatches(calls, m, handle) && effects == EffectsOf(calls, handle)
    requires 0 < |batch| < m && |Flatten(calls) + batch| == |rows|
    requires ConvertedPrefix(rows, convert, Flatten(calls) + batch)
    requires handle(batch).result.Ok?
    ensures BatchOutcome(rows, m, convert, handle, calls + [batch], effects + handle(batch).effects, Ok(()))
  {
    ConvertedAll(rows, convert, Flatten(calls) + batch);
    LastChunk(calls, batch, m, handle);
    BatchedAfterFull(calls, batch, m, handle);
    FlattenAppend(calls, batch);
    EffectsOfAppend(calls, batch, handle);
  }

  /**
    `read_action_batch`: convert the rows one at a time into the current
    batch, hand the batch to the callback each time it reaches the batch
    size, and hand over the non-empty remainder at the end. `calls` lists
    the batches the callback was called with, `effects` what it did.
   */
  method ReadActionBatch<R, V, E>(rows: seq<R>, batchRows: U64, convert: R -> Res<V>, handle: seq<V> -> Call<E>)
    returns (calls: seq<seq<V>>, effects: seq<E>, r: Res<()>)
    ensures BatchOutcome(rows, BatchSize(batchRows), convert, handle, calls, effects, r)
  {
    ghost var m := BatchSize(batchRows);
    calls, effects := [], [];
    var batch: seq<V> := [];
    var i := 0;
    while i < |rows|
      invariant i == |Flatten(calls) + batch| <= |rows|
      invariant ConvertedPrefix(rows, convert, Flatten(calls) + batch)
      invariant FullBatches(calls, m, handle)
      invariant |batch| < m
      invariant effects == EffectsOf(calls, handle)
    {
      var value := convert(rows[i]);
      if value.Err? {
        ConvertErrorOutcome(rows, m, convert, handle, calls, batch, effects);
        r := Err(value.error);
        return;
      }
      ConvertedPrefixSnoc(rows, convert, Flatten(calls) + batch);
      assert Flatten(calls) + (batch + [value.value]) == (Flatten(calls) + batch) + [value.value];
      batch := batch + [value.value];
      i := i + 1;
      if |batch| >= batchRows {
        var call := handle(batch);
        if call.result.Err? {
          HandlerErrorOutcome(rows, m, convert, handle, calls, batch, effects);
          calls, effects, r := calls + [batch], effects + call.effects, call.result;
          return;
        }
        FullBatchesSnoc(calls, batch, m, handle);
        FlattenAppend(calls, batch);
        EffectsOfAppend(calls, batch, handle);
        calls, effects := calls + [batch], effects + call.effects;
        batch := [];
        assert Flatten(calls) + batch == Flatten(calls);
      }
    }
    if batch != [] {
      var call := handle(batch);
      if call.result.Err? {
        HandlerErrorOutcome(rows, m, convert, handle, calls, batch, effects);
        calls, effects, r := calls + [batch], effects + call.effects, call.result;
        return;
      }
      FinishLastOutcome(rows, m, convert, handle, calls, batch, effects);
      calls, effects := calls + [batch], effects + call.effects;
    } else {
      assert Flatten(calls) + batch == Flatten(calls);
      FinishOutcome(rows, m, convert, handle, calls, effects);
    }
    r := Ok(());
  }

  // ---------------------------------------------------------------------
  // read_action_message
  // ---------------------------------------------------------------------

  /** A row's `TLAActionSeq`: its actions and its states. */
  datatype ActionSeq<A> = ActionSeq(actions: seq<A>, states: seq<A>)

  /**
    One action handed on to the caller's `f` without trouble: `to_action_json`
    succeeds, its text parses as an `ActionMessage`, and `f` accepts it.
   */
  predicate Delivers<A, S, M>(a: A, toJson: A -> Res<S>, parse: S -> Option<M>, f: M -> Res<()>) {
    toJson(a).Ok? && parse(toJson(a).value).Some? && f(parse(toJson(a).value).value).Ok?
  }

  /**
    The inner loops of `read_action_message`'s closure over a list of
    actions: a `to_action_json` error is passed on, a message that does not
    parse panics at `m.unwrap()`, and an error of `f` is passed on. The
    effects are the messages `f` was called with.
   */
  function Deliver<A, S, M>(acts: seq<A>, toJson: A -> Res<S>, parse: S -> Option<M>, f: M -> Res<()>): Call<M> {
    if acts == [] then Call([], Ok(()))
    else
      match toJson(acts[0])
      case Err(e) => Call([], Err(e))
      case Ok(s) =>
        match parse(s)
        case None => Call([], Err(Panic))
        case Some(m) =>
          if f(m).Err? then Call([m], f(m))
          else
            var rest := Deliver(acts[1..], toJson, parse, f);
            Call([m] + rest.effects, rest.result)
  }

  /** The closure `read_action_message` gives to `read_actions`: a row's actions first, then its states. */
  function SequenceCall<V, A, S, M>(
    v: V, fromValue: V -> Res<ActionSeq<A>>, toJson: A -> Res<S>, parse: S -> Option<M>, f: M -> Res<()>): Call<M>
  {
    match fromValue(v)
    case Err(e) => Call([], Err(e))
    case Ok(sq) => Deliver(sq.actions + sq.states, toJson, parse, f)
  }

  /** The messages a list of actions parses to. */
  function Messages<A, S, M>(acts: seq<A>, toJson: A -> Res<S>, parse: S -> Option<M>): (ms: seq<M>)
    requires forall i :: 0 <= i < |acts| ==> toJson(acts[i]).Ok? && parse(toJson(acts[i]).value).Some?
    ensures |ms| == |acts|
    ensures forall i :: 0 <= i < |acts| ==> Some(ms[i]) == parse(toJson(acts[i]).value)
  {
    if acts == [] then [] else [parse(toJson(acts[0]).value).value] + Messages(acts[1..], toJson, parse)
  }

  /**
    Delivering a list of actions succeeds exactly when each one is
    delivered, and then `f` has received their messages in list order.
   */
  lemma {:induction false} DeliverInOrder<A, S, M>(acts: seq<A>, toJson: A -> Res<S>, parse: S -> Option<M>, f: M -> Res<()>)
    ensures Deliver(acts, toJson, parse, f).result.Ok? <==>
              forall i :: 0 <= i < |acts| ==> Delivers(acts[i], toJson, parse, f)
    ensures Deliver(acts, toJson, parse, f).result.Ok? ==>
              Deliver(acts, toJson, parse, f).effects == Messages(acts, toJson, parse)
  {
    if acts != [] {
      DeliverInOrder(acts[1..], toJson, parse, f);
      assert forall i :: 1 <= i < |acts| ==> acts[i] == acts[1..][i - 1];
    }
  }

  /**
    The first action that is not delivered decides the outcome: its
    `to_action_json` error, a panic when its text does not parse, or the
    error of `f`; `f` has then received the messages of the actions before
    it, and that action's own message when `f` was the one to fail.
   */
  lemma {:induction false} DeliverFirstFailure<A, S, M>(
    acts: seq<A>, toJson: A -> Res<S>, parse: S -> Option<M>, f: M -> Res<()>, j: nat)
    requires j < |acts| && !Delivers(acts[j], toJson, parse, f)
    requires forall i :: 0 <= i < j ==> Delivers(acts[i], toJson, parse, f)
    ensures Deliver(acts, toJson, parse, f).result ==
              if toJson(acts[j]).Err? then Err(toJson(acts[j]).error)
              else if parse(toJson(acts[j]).value).None? then Err(Panic)
              else f(parse(toJson(acts[j]).value).value)
    ensures |Deliver(acts, toJson, parse, f).effects| ==
              if toJson(acts[j]).Ok? && parse(toJson(acts[j]).value).Some? then j + 1 else j
    ensures forall i :: 0 <= i < |Deliver(acts, toJson, parse, f).effects| ==>
              toJson(acts[i]).Ok? && Some(Deliver(acts, toJson, parse, f).effects[i]) == parse(toJson(acts[i]).value)
  {
    if j > 0 {
      assert forall i :: 1 <= i < |acts| ==> acts[i] == acts[1..][i - 1];
      DeliverFirstFailure(acts[1..], toJson, parse, f, j - 1);
    }
  }

  /** Actions are handed on before states, each list in its own order. */
  lemma MessagesActionsThenStates<A, S, M>(sq: ActionSeq<A>, toJson: A -> Res<S>, parse: S -> Option<M>)
    requires forall i :: 0 <= i < |sq.actions| ==> toJson(sq.actions[i]).Ok? && parse(toJson(sq.actions[i]).value).Some?
    requires forall i :: 0 <= i < |sq.states| ==> toJson(sq.states[i]).Ok? && parse(toJson(sq.states[i]).value).Some?
    ensures Messages(sq.actions + sq.states, toJson, parse)
         == Messages(sq.actions, toJson, parse) + Messages(sq.states, toJson, parse)
  {
    var all := sq.actions + sq.states;
    assert forall i :: 0 <= i < |all| ==> toJson(all[i]).Ok? && parse(toJson(all[i]).value).Some? by {
      forall i | 0 <= i < |all|
        ensures toJson(all[i]).Ok? && parse(toJson(all[i]).value).Some?
      {
        if i >= |sq.actions| {
          assert all[i] == sq.states[i - |sq.actions|];
        }
      }
    }
    var lhs := Messages(all, toJson, parse);
    var rhs := Messages(sq.actions, toJson, parse) + Messages(sq.states, toJson, parse);
    forall i | 0 <= i < |all|
      ensures lhs[i] == rhs[i]
    {
      if i >= |sq.actions| {
        assert all[i] == sq.states[i - |sq.actions|];
      }
    }
  }

  /**
    `read_action_message`: `read_actions` with the closure above. Its
    outcome is unwrapped, so any error becomes a panic and the call never
    returns an error of its own. `delivered` lists the messages `f` received.
   */
  method ReadActionMessage<R, V, A, S, M>(
    rows: seq<R>, convert: R -> Res<V>,
    fromValue: V -> Res<ActionSeq<A>>, toJson: A -> Res<S>, parse: S -> Option<M>, f: M -> Res<()>)
    returns (delivered: seq<M>, r: Res<()>)
    ensures r == Ok(()) || r == Err(Panic)
    ensures r.Ok? <==>
              && AllConvert(rows, convert)
              && forall i :: 0 <= i < |rows| ==> SequenceCall(Values(rows, convert)[i], fromValue, toJson, parse, f).result.Ok?
    ensures r.Ok? ==>
              delivered == EffectsOf(Values(rows, convert), v => SequenceCall(v, fromValue, toJson, parse, f))
  {
    var handle := v => SequenceCall(v, fromValue, toJson, parse, f);
    assert forall x :: handle(x) == SequenceCall(x, fromValue, toJson, parse, f);
    var handled, effects, res := ReadActions(rows, convert, handle);
    delivered := effects;
    if res.Ok? {
      ConvertedAll(rows, convert, handled);
      r := Ok(());
    } else {
      if AllConvert(rows, convert) {
        var vs := Values(rows, convert);
        forall j | 0 <= j < |handled|
          ensures handled[j] == vs[j]
        {
          ValuesAt(rows, convert, j);
        }
      }
      r := Err(Panic);
    }
  }

  // ---------------------------------------------------------------------
  // state_to_action
  // ---------------------------------------------------------------------

  /** The stage the intermediate trace database reports; only `WriteAction` matters here. */
  datatype Stage = WriteAction | OtherStage(code: nat)

  /** A call `state_to_action` makes on the intermediate trace database. */
  datatype DbOp<T> = BeginWrite | WriteRows(rows: seq<T>) | EndWrite

  /** The action graph `gen_graph` builds from what the database holds. */
  datatype ActionGraph<T> = ActionGraph(built: seq<DbOp<T>>)

  /**
    `TraceDBInterm`, reduced to its stage and the list of write calls made
    on it. Its storage is not part of this model.
   */
  class TraceDb<T> {
    var stage: Stage
    var log: seq<DbOp<T>>

    constructor (stage: Stage)
      ensures this.stage == stage && log == []
    {
      this.stage := stage;
      log := [];
    }

    method GetState() returns (s: Stage)
      ensures s == stage
    {
      s := stage;
    }

    method BeginWriteAction()
      modifies this
      ensures stage == old(stage) && log == old(log) + [BeginWrite]
    {
      log := log + [BeginWrite];
    }

    /** The `write_action` calls a callback made, in order. */
    method Apply(ops: seq<DbOp<T>>)
      modifies this
      ensures stage == old(stage) && log == old(log) + ops
    {
      log := log + ops;
    }

    method EndWriteAction()
      modifies this
      ensures stage == old(stage) && log == old(log) + [EndWrite]
    {
      log := log + [EndWrite];
    }

    method GenGraph() returns (g: ActionGraph<T>)
      ensures g == ActionGraph(log)
    {
      g := ActionGraph(log);
    }
  }

  /** The fixed batch size `state_to_action` reads with. */
  const StateBatchRows: U64 := 10000

  /** The tuples of a batch's action sequences, in order; the first failure aborts. */
  function Tuples<V, T>(vs: seq<V>, toTuple: V -> Res<T>): Res<seq<T>> {
    if vs == [] then Ok([])
    else
      match toTuple(vs[0])
      case Err(e) => Err(e)
      case Ok(t) =>
        match Tuples(vs[1..], toTuple)
        case Err(e) => Err(e)
        case Ok(ts) => Ok([t] + ts)
  }

  /**
    The batch closure of `state_to_action`: every value becomes a tuple
    (`TLAActionSeq::from` then `to_tuple`), and the tuples are written in one
    `write_action` call, whose outcome is `write`'s.
   */
  function BatchWriter<V, T>(toTuple: V -> Res<T>, write: seq<T> -> Res<()>): seq<V> -> Call<DbOp<T>> {
    vs =>
      match Tuples(vs, toTuple)
      case Err(e) => Call([], Err(e))
      case Ok(ts) => Call([WriteRows(ts)], write(ts))
  }

  /** The batch closure only ever writes rows: it never ends the write. */
  lemma {:induction false} WriterOnlyWrites<V, T>(calls: seq<seq<V>>, toTuple: V -> Res<T>, write: seq<T> -> Res<()>)
    ensures forall op :: op in EffectsOf(calls, BatchWriter(toTuple, write)) ==> op.WriteRows?
  {
    if calls != [] {
      WriterOnlyWrites(calls[1..], toTuple, write);
    }
  }

  /** Some batch run of `state_to_action` makes the writes `ops` and fails with `e`. */
  ghost predicate WriteFails<R, V(!new), T>(
    rows: seq<R>, convert: R -> Res<V>, toTuple: V -> Res<T>, write: seq<T> -> Res<()>, ops: seq<DbOp<T>>, e: Error)
  {
    exists calls :: BatchOutcome(rows, StateBatchRows, convert, BatchWriter(toTuple, write), calls, ops, Err(e))
  }

  /**
    `state_to_action`: only in the `WriteAction` stage are the action
    sequences read in batches of 10000 and written, between a
    `begin_write_action` and an `end_write_action`; in any stage the graph
    is then built from the database. An error in the batch run is returned
    as it is, after the writes the batches made and before the write is
    ended or the graph built.
   */
  method StateToAction<R, V(!new), T>(
    db: TraceDb<T>, rows: seq<R>, convert: R -> Res<V>, toTuple: V -> Res<T>, write: seq<T> -> Res<()>)
    returns (r: Res<ActionGraph<T>>)
    modifies db
    ensures db.stage == old(db.stage)
    ensures old(db.stage) != WriteAction ==> db.log == old(db.log) && r == Ok(ActionGraph(db.log))
    ensures old(db.stage) == WriteAction ==>
              |db.log| > |old(db.log)| && db.log[..|old(db.log)| + 1] == old(db.log) + [BeginWrite]
    ensures old(db.stage) == WriteAction ==>
              (r.Ok? <==> Accepted(rows, StateBatchRows, convert, BatchWriter(toTuple, write)))
    ensures old(db.stage) == WriteAction && r.Ok? ==>
              && db.log == old(db.log) + [BeginWrite]
                 + EffectsOf(Chunks(Values(rows, convert), StateBatchRows), BatchWriter(toTuple, write))
                 + [EndWrite]
              && r == Ok(ActionGraph(db.log))
    ensures old(db.stage) == WriteAction && r.Err? ==>
              && WriteFails(rows, convert, toTuple, write, db.log[|old(db.log)| + 1..], r.error)
              && EndWrite !in db.log[|old(db.log)|..]
  {
    var stage := db.GetState();
    if stage == WriteAction {
      db.BeginWriteAction();
    }
    if stage == WriteAction {
      var calls, effects, res := ReadActionBatch(rows, StateBatchRows, convert, BatchWriter(toTuple, write));
      db.Apply(effects);
      if res.Err? {
        WriterOnlyWrites(calls, toTuple, write);
        assert db.log[|old(db.log)| + 1..] == effects;
        assert db.log[|old(db.log)|..] == [BeginWrite] + effects;
        return Err(res.error);
      }
      db.EndWriteAction();
    }
    var graph := db.GenGraph();
    r := Ok(graph);
  }
}
