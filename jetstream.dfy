/** The broker-facing side of jetstream.go: the connection gate in front of the
    JetStream context, the delivery callback that `NewNATSMessageHandler` builds, and
    the two-phase registration of downstream clients.

    The broker, the payload's methods and the user's handlers are code this model cannot
    see: they are function parameters, and what the package does with them is recorded as
    a trace of calls. */
module JetStream {
  import opened Wrappers
  import opened GoTypes
  import opened Errors

  // ---------------------------------------------------------------------------------
  // The connection gate: Publish, QueueSubscribe, Subscribe, AddStream, ConsumerInfo
  // ---------------------------------------------------------------------------------

  /** A `*nats.Conn`, seen only through `IsConnected()`. */
  datatype Conn = Conn(connected: bool)

  /** `jsImpl`: its connection; its JetStream context is the `Broker` passed to each call. */
  datatype JsImpl = JsImpl(natsConn: Option<Conn>)

  /** Options (`nats.PubOpt`, `nats.SubOpt`, `nats.JSOpt`), passed through unread. */
  type Opt = string

  /** The subscription callback handed to the broker, known only by its identity. */
  type CallbackId = nat

  datatype StreamConfig = StreamConfig(name: string, subjects: seq<string>)

  /** A call on the JetStream context. */
  datatype CtxCall =
    | CtxPublish(subject: string, value: Bytes, pubOpts: seq<Opt>)
    | CtxQueueSubscribe(subj: string, queue: string, cb: CallbackId, subOpts: seq<Opt>)
    | CtxSubscribe(subj: string, cb: CallbackId, subOpts: seq<Opt>)
    | CtxStreamInfo(streamName: string)
    | CtxAddStream(cfg: StreamConfig, jsOpts: seq<Opt>)
    | CtxUpdateStream(cfg: StreamConfig)
    | CtxConsumerInfo(stream: string, consumer: string, jsOpts: seq<Opt>)

  /** A Go `(*T, error)` pair; the object is known by its identity only. */
  datatype Reply = Reply(value: Option<nat>, err: Option<Err>)

  /** The JetStream context's answer to each call. */
  type Broker = CtxCall -> Reply

  /** The calls a gated operation made on the context, in order, and what it returned. */
  datatype Outcome = Outcome(calls: seq<CtxCall>, reply: Reply)

  const LostReply: Reply := Reply(None, Some(ConnectionLost))

  /** `isValidConn()`. */
  predicate IsValidConn(j: JsImpl)
  {
    j.natsConn.Some? && j.natsConn.value.connected
  }

  /** An operation that makes the single context call `c` behind the connection gate. */
  function Delegate(j: JsImpl, broker: Broker, c: CtxCall): (o: Outcome)
    ensures !IsValidConn(j) ==> o == Outcome([], LostReply)
    ensures IsValidConn(j) ==> o == Outcome([c], broker(c))
  {
    if !IsValidConn(j) then Outcome([], LostReply) else Outcome([c], broker(c))
  }

  function Publish(j: JsImpl, broker: Broker, subject: string, value: Bytes, opts: seq<Opt>): (o: Outcome)
    ensures !IsValidConn(j) ==> o.calls == [] && o.reply == LostReply
    ensures IsValidConn(j) ==> o.calls == [CtxPublish(subject, value, opts)] && o.reply == broker(o.calls[0])
  {
    Delegate(j, broker, CtxPublish(subject, value, opts))
  }

  function QueueSubscribe(j: JsImpl, broker: Broker, subj: string, queue: string, cb: CallbackId, opts: seq<Opt>): (o: Outcome)
    ensures !IsValidConn(j) ==> o.calls == [] && o.reply == LostReply
    ensures IsValidConn(j) ==> o.calls == [CtxQueueSubscribe(subj, queue, cb, opts)] && o.reply == broker(o.calls[0])
  {
    Delegate(j, broker, CtxQueueSubscribe(subj, queue, cb, opts))
  }

  function Subscribe(j: JsImpl, broker: Broker, subj: string, cb: CallbackId, opts: seq<Opt>): (o: Outcome)
    ensures !IsValidConn(j) ==> o.calls == [] && o.reply == LostReply
    ensures IsValidConn(j) ==> o.calls == [CtxSubscribe(subj, cb, opts)] && o.reply == broker(o.calls[0])
  {
    Delegate(j, broker, CtxSubscribe(subj, cb, opts))
  }

  function ConsumerInfo(j: JsImpl, broker: Broker, streamName: string, consumerName: string, opts: seq<Opt>): (o: Outcome)
    ensures !IsValidConn(j) ==> o.calls == [] && o.reply == LostReply
    ensures IsValidConn(j) ==> o.calls == [CtxConsumerInfo(streamName, consumerName, opts)] && o.reply == broker(o.calls[0])
  {
    Delegate(j, broker, CtxConsumerInfo(streamName, consumerName, opts))
  }

  /** `AddStream(cfg, opts...)`: behind the gate it looks the stream up by name, ignoring the
      lookup's error, then adds the stream when the lookup found nothing and updates it
      otherwise; the update is made without the options. */
  function AddStream(j: JsImpl, broker: Broker, cfg: StreamConfig, opts: seq<Opt>): (o: Outcome)
    ensures !IsValidConn(j) ==> o.calls == [] && o.reply == LostReply
    ensures IsValidConn(j) ==> |o.calls| == 2 && o.calls[0] == CtxStreamInfo(cfg.name) && o.reply == broker(o.calls[1])
    ensures IsValidConn(j) && broker(CtxStreamInfo(cfg.name)).value.None? ==> o.calls[1] == CtxAddStream(cfg, opts)
    ensures IsValidConn(j) && broker(CtxStreamInfo(cfg.name)).value.Some? ==> o.calls[1] == CtxUpdateStream(cfg)
  {
    if !IsValidConn(j) then Outcome([], LostReply)
    else
      var streamInfo := broker(CtxStreamInfo(cfg.name)).value;
      var second := if streamInfo.None? then CtxAddStream(cfg, opts) else CtxUpdateStream(cfg);
      Outcome([CtxStreamInfo(cfg.name), second], broker(second))
  }

  /** The stream lookup's error is discarded: two contexts that agree on everything but
      that error lead `AddStream` to the same calls and the same reply. */
  lemma AddStreamIgnoresLookupError(j: JsImpl, b1: Broker, b2: Broker, cfg: StreamConfig, opts: seq<Opt>)
    requires b1(CtxStreamInfo(cfg.name)).value == b2(CtxStreamInfo(cfg.name)).value
    requires forall c: CtxCall :: !c.CtxStreamInfo? ==> b1(c) == b2(c)
    ensures AddStream(j, b1, cfg, opts) == AddStream(j, b2, cfg, opts)
  {
  }

  // ---------------------------------------------------------------------------------
  // The delivery callback of NewNATSMessageHandler
  // ---------------------------------------------------------------------------------

  /** A delivered `*nats.Msg`: its subject and its data, `None` for nil. */
  datatype Msg = Msg(subject: string, data: Option<Bytes>)

  /** What the payload's `ParseFromBytes` returned and the payload's state afterwards. */
  datatype ParseResult<P> = ParseResult(payload: P, err: Option<Err>)

  /** The closure's captured configuration. `P` is the state of the payload object that
      every delivery parses into. `msgHandler` is told the attempt number (from 1) so it
      can stand for a handler whose answer changes between calls; `errHandler` is
      `None` for a nil fallback. The retry interval only sets the sleep between attempts
      and is not part of the model. */
  datatype Callback<!P> = Callback(
    parse: (P, Bytes) -> ParseResult<P>,
    addSubject: (P, string) -> P,
    retryAttempts: nat,
    msgHandler: (nat, P) -> Option<Err>,
    errHandler: Option<P -> Option<Err>>)

  /** The calls one delivery makes, on the payload, on the user's handlers and on the
      message (`Ack`). */
  datatype Call<P> =
    | ParseFromBytes(data: Bytes)
    | AddSubject(subject: string)
    | MsgHandler(attempt: nat, payload: P)
    | ErrHandler(payload: P)
    | Ack

  /** The calls of one delivery and the payload's state when it returns. */
  datatype Delivery<P> = Delivery(trace: seq<Call<P>>, payload: P)

  /** The retry policy: `remaining` more calls of the handler from attempt number
      `attempt`, stopping at the first that returns no error. Returns the calls and
      whether one succeeded. */
  function Retry<P>(f: (nat, P) -> Option<Err>, p: P, attempt: nat, remaining: nat): (r: (seq<Call<P>>, bool))
    ensures |r.0| <= remaining
    ensures forall j :: 0 <= j < |r.0| ==> r.0[j] == MsgHandler(attempt + j, p)
    ensures forall k :: attempt <= k < attempt + |r.0| - 1 ==> f(k, p).Some?
    ensures r.1 <==> |r.0| > 0 && f(attempt + |r.0| - 1, p).None?
    ensures !r.1 ==> |r.0| == remaining
    decreases remaining
  {
    if remaining == 0 then ([], false)
    else if f(attempt, p).None? then ([MsgHandler(attempt, p)], true)
    else
      var rest := Retry(f, p, attempt + 1, remaining - 1);
      ([MsgHandler(attempt, p)] + rest.0, rest.1)
  }

  /** The payload after parsing and tagging, for a delivery that parsed. */
  function Tagged<P>(cb: Callback<P>, msg: Msg, payload: P): P
    requires msg.data.Some?
  {
    cb.addSubject(cb.parse(payload, msg.data.value).payload, msg.subject)
  }

  /** One invocation of the callback: nil data is dropped, a parse failure is dropped, a
      parsed payload is tagged with the delivery subject and handed to the retried
      handler, and after every attempt failed to the fallback when there is one. The
      deferred acknowledgement comes last on every path. */
  function Deliver<P>(cb: Callback<P>, msg: Msg, payload: P): (r: Delivery<P>)
    ensures |r.trace| > 0 && r.trace[|r.trace| - 1] == Ack
    ensures msg.data.None? ==> r == Delivery([Ack], payload)
    ensures msg.data.Some? ==> r.trace[0] == ParseFromBytes(msg.data.value)
    ensures msg.data.Some? && cb.parse(payload, msg.data.value).err.None? ==> r.payload == Tagged(cb, msg, payload)
  {
    if msg.data.None? then Delivery([Ack], payload)
    else
      var parsed := cb.parse(payload, msg.data.value);
      if parsed.err.Some? then Delivery([ParseFromBytes(msg.data.value), Ack], parsed.payload)
      else
        var p := cb.addSubject(parsed.payload, msg.subject);
        var retried := Retry(cb.msgHandler, p, 1, cb.retryAttempts);
        var fallback := if !retried.1 && cb.errHandler.Some? then [ErrHandler(p)] else [];
        Delivery([ParseFromBytes(msg.data.value), AddSubject(msg.subject)] + retried.0 + fallback + [Ack], p)
  }

  /** The number of calls in `t` equal to `c`. */
  ghost function Count<P>(t: seq<Call<P>>, c: Call<P>): nat
  {
    if t == [] then 0 else (if t[0] == c then 1 else 0) + Count(t[1..], c)
  }

  lemma {:induction false} CountAppend<P>(a: seq<Call<P>>, b: seq<Call<P>>, c: Call<P>)
    ensures Count(a + b, c) == Count(a, c) + Count(b, c)
  {
    if a == [] {
      assert a + b == b;
    } else {
      assert (a + b)[0] == a[0] && (a + b)[1..] == a[1..] + b;
      CountAppend(a[1..], b, c);
    }
  }

  lemma {:induction false} CountAbsent<P>(t: seq<Call<P>>, c: Call<P>)
    requires forall j :: 0 <= j < |t| ==> t[j] != c
    ensures Count(t, c) == 0
  {
    if t != [] {
      CountAbsent(t[1..], c);
    }
  }

  lemma RetryHasNoOtherCalls<P>(f: (nat, P) -> Option<Err>, p: P, attempt: nat, remaining: nat)
    ensures forall j :: 0 <= j < |Retry(f, p, attempt, remaining).0| ==> Retry(f, p, attempt, remaining).0[j].MsgHandler?
  {
  }

  /** On every path the message is acknowledged exactly once, and the acknowledgement is
      the last call. */
  lemma AckExactlyOnceAndLast<P>(cb: Callback<P>, msg: Msg, payload: P)
    ensures var t := Deliver(cb, msg, payload).trace;
            |t| > 0 && t[|t| - 1] == Ack && Count(t, Ack) == 1
  {
    var t := Deliver(cb, msg, payload).trace;
    if msg.data.Some? && cb.parse(payload, msg.data.value).err.None? {
      var p := Tagged(cb, msg, payload);
      var retried := Retry(cb.msgHandler, p, 1, cb.retryAttempts);
      var fallback := if !retried.1 && cb.errHandler.Some? then [ErrHandler(p)] else [];
      var body := [ParseFromBytes(msg.data.value), AddSubject(msg.subject)] + retried.0 + fallback;
      assert t == body + [Ack];
      forall j | 0 <= j < |body| ensures body[j] != Ack {
        if 2 <= j < 2 + |retried.0| {
          assert body[j] == retried.0[j - 2];
        }
      }
      CountAbsent(body, Ack);
      CountAppend(body, [Ack], Ack);
      var last: seq<Call<P>> := [Ack];
      assert Count(last, Ack) == 1 by { assert last[1..] == []; }
    } else {
      var last: seq<Call<P>> := [Ack];
      assert Count(last, Ack) == 1 by { assert last[1..] == []; }
      if msg.data.Some? {
        assert t == [ParseFromBytes(msg.data.value)] + last;
        CountAppend([ParseFromBytes(msg.data.value)], last, Ack);
        var first: seq<Call<P>> := [ParseFromBytes(msg.data.value)];
        assert Count(first, Ack) == 0 by { assert first[1..] == []; }
      }
    }
  }

  /** Nil data and a parse failure are dropped: the handler and the fallback are never
      called, nor (for nil data) the parser. */
  lemma DroppedDeliveries<P>(cb: Callback<P>, msg: Msg, payload: P)
    ensures msg.data.None? ==> Deliver(cb, msg, payload) == Delivery([Ack], payload)
    ensures msg.data.Some? && cb.parse(payload, msg.data.value).err.Some? ==>
              Deliver(cb, msg, payload) == Delivery([ParseFromBytes(msg.data.value), Ack], cb.parse(payload, msg.data.value).payload)
  {
  }

  /** A parsed payload is tagged with the delivery subject exactly once, before the first
      handler call, and every handler or fallback call gets the tagged payload. */
  lemma {:induction false} SubjectTaggedBeforeHandlers<P>(cb: Callback<P>, msg: Msg, payload: P)
    requires msg.data.Some? && cb.parse(payload, msg.data.value).err.None?
    ensures var t := Deliver(cb, msg, payload).trace;
            |t| >= 3 && t[0] == ParseFromBytes(msg.data.value) && t[1] == AddSubject(msg.subject) &&
            (forall j :: 2 <= j < |t| ==> !t[j].AddSubject? && !t[j].ParseFromBytes?) &&
            (forall j :: 0 <= j < |t| && (t[j].MsgHandler? || t[j].ErrHandler?) ==> t[j].payload == Tagged(cb, msg, payload))
  {
    var t := Deliver(cb, msg, payload).trace;
    var p := Tagged(cb, msg, payload);
    var retried := Retry(cb.msgHandler, p, 1, cb.retryAttempts);
    var fallback := if !retried.1 && cb.errHandler.Some? then [ErrHandler(p)] else [];
    assert t == [ParseFromBytes(msg.data.value), AddSubject(msg.subject)] + retried.0 + fallback + [Ack];
    forall j | 2 <= j < |t|
      ensures !t[j].AddSubject? && !t[j].ParseFromBytes?
      ensures (t[j].MsgHandler? || t[j].ErrHandler?) ==> t[j].payload == p
    {
      if j < 2 + |retried.0| {
        assert t[j] == retried.0[j - 2];
      } else if j < 2 + |retried.0| + |fallback| {
        assert t[j] == fallback[j - 2 - |retried.0|];
      }
    }
  }

  /** The handler calls in a trace, in order. */
  function HandlerCalls<P>(t: seq<Call<P>>): (r: seq<Call<P>>)
    ensures forall j :: 0 <= j < |r| ==> r[j].MsgHandler?
    ensures |r| <= |t|
  {
    if t == [] then []
    else (if t[0].MsgHandler? then [t[0]] else []) + HandlerCalls(t[1..])
  }

  lemma {:induction false} HandlerCallsAppend<P>(a: seq<Call<P>>, b: seq<Call<P>>)
    ensures HandlerCalls(a + b) == HandlerCalls(a) + HandlerCalls(b)
  {
    if a == [] {
      assert a + b == b;
    } else {
      assert (a + b)[0] == a[0] && (a + b)[1..] == a[1..] + b;
      HandlerCallsAppend(a[1..], b);
    }
  }

  lemma {:induction false} HandlerCallsOfRetry<P>(calls: seq<Call<P>>)
    requires forall j :: 0 <= j < |calls| ==> calls[j].MsgHandler?
    ensures HandlerCalls(calls) == calls
  {
    if calls != [] {
      HandlerCallsOfRetry(calls[1..]);
    }
  }

  /** The fallback calls of a parsed delivery whose retried handler gave `retried`. */
  function Fallback<P>(cb: Callback<P>, p: P, retried: (seq<Call<P>>, bool)): (r: seq<Call<P>>)
    ensures |r| <= 1
    ensures r != [] <==> !retried.1 && cb.errHandler.Some?
    ensures forall j :: 0 <= j < |r| ==> r[j] == ErrHandler(p)
  {
    if !retried.1 && cb.errHandler.Some? then [ErrHandler(p)] else []
  }

  /** A parsed delivery's trace in its four parts. */
  lemma ParsedTrace<P>(cb: Callback<P>, msg: Msg, payload: P)
    requires msg.data.Some? && cb.parse(payload, msg.data.value).err.None?
    ensures var p := Tagged(cb, msg, payload);
            var retried := Retry(cb.msgHandler, p, 1, cb.retryAttempts);
            Deliver(cb, msg, payload).trace ==
              [ParseFromBytes(msg.data.value), AddSubject(msg.subject)] + retried.0 + Fallback(cb, p, retried) + [Ack]
  {
  }

  lemma ParsedHandlerCalls<P>(cb: Callback<P>, msg: Msg, payload: P)
    requires msg.data.Some? && cb.parse(payload, msg.data.value).err.None?
    ensures HandlerCalls(Deliver(cb, msg, payload).trace) == Retry(cb.msgHandler, Tagged(cb, msg, payload), 1, cb.retryAttempts).0
  {
    var p := Tagged(cb, msg, payload);
    var retried := Retry(cb.msgHandler, p, 1, cb.retryAttempts);
    var fallback := Fallback(cb, p, retried);
    var head := [ParseFromBytes(msg.data.value), AddSubject(msg.subject)];
    ParsedTrace(cb, msg, payload);
    HandlerCallsAppend(head + retried.0 + fallback, [Ack]);
    HandlerCallsAppend(head + retried.0, fallback);
    HandlerCallsAppend(head, retried.0);
    HandlerCallsOfRetry(retried.0);
    assert HandlerCalls(head) == [] by {
      assert HandlerCalls(head[1..][1..]) == [];
    }
    assert HandlerCalls(fallback) == [] by {
      if fallback != [] { assert fallback[1..] == []; }
    }
    var last: seq<Call<P>> := [Ack];
    assert HandlerCalls(last) == [] by {
      assert last[1..] == [];
    }
  }

  lemma ParsedFallbackCount<P>(cb: Callback<P>, msg: Msg, payload: P)
    requires msg.data.Some? && cb.parse(payload, msg.data.value).err.None?
    ensures var retried := Retry(cb.msgHandler, Tagged(cb, msg, payload), 1, cb.retryAttempts);
            Count(Deliver(cb, msg, payload).trace, ErrHandler(Tagged(cb, msg, payload))) == (if !retried.1 && cb.errHandler.Some? then 1 else 0)
  {
    var p := Tagged(cb, msg, payload);
    var retried := Retry(cb.msgHandler, p, 1, cb.retryAttempts);
    var fallback := Fallback(cb, p, retried);
    var head := [ParseFromBytes(msg.data.value), AddSubject(msg.subject)];
    var last: seq<Call<P>> := [Ack];
    ParsedTrace(cb, msg, payload);
    RetryHasNoOtherCalls(cb.msgHandler, p, 1, cb.retryAttempts);
    forall j | 0 <= j < |head + retried.0| ensures (head + retried.0)[j] != ErrHandler(p) {
      if j >= 2 {
        assert (head + retried.0)[j] == retried.0[j - 2];
      }
    }
    CountAbsent(head + retried.0, ErrHandler(p));
    CountAbsent(last, ErrHandler(p));
    CountAppend(head + retried.0 + fallback, last, ErrHandler(p));
    CountAppend(head + retried.0, fallback, ErrHandler(p));
    assert Count(fallback, ErrHandler(p)) == |fallback| by {
      if fallback != [] { assert fallback[1..] == []; }
    }
  }

  lemma ParsedFallbackOnlyOnExhaustion<P>(cb: Callback<P>, msg: Msg, payload: P)
    requires msg.data.Some? && cb.parse(payload, msg.data.value).err.None?
    ensures var t := Deliver(cb, msg, payload).trace;
            var retried := Retry(cb.msgHandler, Tagged(cb, msg, payload), 1, cb.retryAttempts);
            forall j :: 0 <= j < |t| && t[j].ErrHandler? ==> !retried.1 && cb.errHandler.Some?
  {
    var t := Deliver(cb, msg, payload).trace;
    var p := Tagged(cb, msg, payload);
    var retried := Retry(cb.msgHandler, p, 1, cb.retryAttempts);
    var fallback := Fallback(cb, p, retried);
    ParsedTrace(cb, msg, payload);
    RetryHasNoOtherCalls(cb.msgHandler, p, 1, cb.retryAttempts);
    forall j | 0 <= j < |t| && t[j].ErrHandler?
      ensures !retried.1 && cb.errHandler.Some?
    {
      if j < 2 {
      } else if j < 2 + |retried.0| {
        assert t[j] == retried.0[j - 2];
      } else if j < 2 + |retried.0| + |fallback| {
        assert fallback != [];
      }
    }
  }

  /** The handler calls of a parsed delivery are exactly the retry policy's calls, and the
      fallback is called exactly when every attempt failed and a fallback exists. */
  lemma ParsedDeliveryShape<P>(cb: Callback<P>, msg: Msg, payload: P)
    requires msg.data.Some? && cb.parse(payload, msg.data.value).err.None?
    ensures var t := Deliver(cb, msg, payload).trace;
            var retried := Retry(cb.msgHandler, Tagged(cb, msg, payload), 1, cb.retryAttempts);
            HandlerCalls(t) == retried.0 &&
            Count(t, ErrHandler(Tagged(cb, msg, payload))) == (if !retried.1 && cb.errHandler.Some? then 1 else 0) &&
            (forall j :: 0 <= j < |t| && t[j].ErrHandler? ==> !retried.1 && cb.errHandler.Some?)
  {
    ParsedHandlerCalls(cb, msg, payload);
    ParsedFallbackCount(cb, msg, payload);
    ParsedFallbackOnlyOnExhaustion(cb, msg, payload);
  }

  /** A handler that fails the attempts before `k` and succeeds on attempt `k <= N` is
      called exactly `k` times, on attempts 1 to `k` with the tagged payload, and the
      fallback is not called. */
  lemma SuccessOnAttempt<P>(cb: Callback<P>, msg: Msg, payload: P, k: nat)
    requires msg.data.Some? && cb.parse(payload, msg.data.value).err.None?
    requires 1 <= k <= cb.retryAttempts
    requires forall a :: 1 <= a < k ==> cb.msgHandler(a, Tagged(cb, msg, payload)).Some?
    requires cb.msgHandler(k, Tagged(cb, msg, payload)).None?
    ensures var t := Deliver(cb, msg, payload).trace;
            |HandlerCalls(t)| == k &&
            (forall j :: 0 <= j < k ==> HandlerCalls(t)[j] == MsgHandler(j + 1, Tagged(cb, msg, payload))) &&
            (forall j :: 0 <= j < |t| ==> !t[j].ErrHandler?)
  {
    var p := Tagged(cb, msg, payload);
    ParsedDeliveryShape(cb, msg, payload);
    var retried := Retry(cb.msgHandler, p, 1, cb.retryAttempts);
    var n := |retried.0|;
    if n < k {
      assert false;
    }
    if n > k {
      assert false;
    }
  }

  /** When all `N` attempts fail, the handler is called on every attempt `1..N`, and the
      fallback, when there is one, is called exactly once with the tagged payload, and is
      not called when there is none. */
  lemma Exhaustion<P>(cb: Callback<P>, msg: Msg, payload: P)
    requires msg.data.Some? && cb.parse(payload, msg.data.value).err.None?
    requires forall a :: 1 <= a <= cb.retryAttempts ==> cb.msgHandler(a, Tagged(cb, msg, payload)).Some?
    ensures var t := Deliver(cb, msg, payload).trace;
            |HandlerCalls(t)| == cb.retryAttempts &&
            (forall j :: 0 <= j < cb.retryAttempts ==> HandlerCalls(t)[j] == MsgHandler(j + 1, Tagged(cb, msg, payload))) &&
            Count(t, ErrHandler(Tagged(cb, msg, payload))) == (if cb.errHandler.Some? then 1 else 0) &&
            (cb.errHandler.None? ==> forall j :: 0 <= j < |t| ==> !t[j].ErrHandler?)
  {
    var p := Tagged(cb, msg, payload);
    ParsedDeliveryShape(cb, msg, payload);
    var retried := Retry(cb.msgHandler, p, 1, cb.retryAttempts);
    if retried.1 {
      assert false;
    }
  }

  /** The callback has no result: whatever the fallback returns, the delivery makes the
      same calls and leaves the payload the same. */
  lemma FallbackErrorNotPropagated<P>(cb: Callback<P>, msg: Msg, payload: P, g1: P -> Option<Err>, g2: P -> Option<Err>)
    ensures Deliver(cb.(errHandler := Some(g1)), msg, payload) == Deliver(cb.(errHandler := Some(g2)), msg, payload)
  {
  }

  /** One step of the retry policy, as an equation the loop below can use. */
  lemma RetryStep<P>(f: (nat, P) -> Option<Err>, p: P, attempt: nat, remaining: nat, before: seq<Call<P>>)
    requires remaining > 0
    ensures f(attempt, p).None? ==>
              before + Retry(f, p, attempt, remaining).0 == before + [MsgHandler(attempt, p)] && Retry(f, p, attempt, remaining).1
    ensures f(attempt, p).Some? ==>
              before + Retry(f, p, attempt, remaining).0 == (before + [MsgHandler(attempt, p)]) + Retry(f, p, attempt + 1, remaining - 1).0 &&
              Retry(f, p, attempt, remaining).1 == Retry(f, p, attempt + 1, remaining - 1).1
  {
    var rest := Retry(f, p, attempt + 1, remaining - 1);
    assert (before + [MsgHandler(attempt, p)]) + rest.0 == before + ([MsgHandler(attempt, p)] + rest.0);
  }

  /** The loop's invariant carried across one attempt. */
  lemma RetryAdvance<P>(f: (nat, P) -> Option<Err>, p: P, attempts: nat, attempt: nat, calls: seq<Call<P>>)
    requires 1 <= attempt <= attempts
    requires Retry(f, p, 1, attempts).0 == calls + Retry(f, p, attempt, attempts + 1 - attempt).0
    requires Retry(f, p, 1, attempts).1 == Retry(f, p, attempt, attempts + 1 - attempt).1
    ensures f(attempt, p).None? ==> Retry(f, p, 1, attempts).0 == calls + [MsgHandler(attempt, p)] && Retry(f, p, 1, attempts).1
    ensures f(attempt, p).Some? ==>
              Retry(f, p, 1, attempts).0 == (calls + [MsgHandler(attempt, p)]) + Retry(f, p, attempt + 1, attempts + 1 - (attempt + 1)).0 &&
              Retry(f, p, 1, attempts).1 == Retry(f, p, attempt + 1, attempts + 1 - (attempt + 1)).1
  {
    RetryStep(f, p, attempt, attempts + 1 - attempt, calls);
  }

  /** The retry policy as a loop: up to `attempts` calls of the handler, stopping at the
      first that returns no error. */
  method RetryLoop<P>(f: (nat, P) -> Option<Err>, p: P, attempts: nat) returns (calls: seq<Call<P>>, ok: bool)
    ensures (calls, ok) == Retry(f, p, 1, attempts)
  {
    calls, ok := [], false;
    var attempt := 1;
    assert calls + Retry(f, p, 1, attempts).0 == Retry(f, p, 1, attempts).0;
    while attempt <= attempts && !ok
      invariant 1 <= attempt <= attempts + 1
      invariant ok ==> Retry(f, p, 1, attempts).0 == calls && Retry(f, p, 1, attempts).1
      invariant !ok ==> Retry(f, p, 1, attempts).0 == calls + Retry(f, p, attempt, attempts + 1 - attempt).0
      invariant !ok ==> Retry(f, p, 1, attempts).1 == Retry(f, p, attempt, attempts + 1 - attempt).1
      decreases attempts + 1 - attempt
    {
      var err := f(attempt, p);
      RetryAdvance(f, p, attempts, attempt, calls);
      calls := calls + [MsgHandler(attempt, p)];
      ok := err.None?;
      attempt := attempt + 1;
    }
    if !ok {
      assert calls + [] == calls;
    }
  }

  /** The callback as the imperative sequence of the Go code: the acknowledgement deferred to
      the end, two early returns, and the retry loop around the handler. */
  method HandleMsg<P>(cb: Callback<P>, msg: Msg, payload: P) returns (trace: seq<Call<P>>, after: P)
    ensures Delivery(trace, after) == Deliver(cb, msg, payload)
    ensures |trace| > 0 && trace[|trace| - 1] == Ack && Count(trace, Ack) == 1
  {
    trace, after := [], payload;
    if msg.data.Some? {
      trace := trace + [ParseFromBytes(msg.data.value)];
      var parsed := cb.parse(payload, msg.data.value);
      after := parsed.payload;
      if parsed.err.None? {
        after := cb.addSubject(after, msg.subject);
        trace := trace + [AddSubject(msg.subject)];
        var calls, ok := RetryLoop(cb.msgHandler, after, cb.retryAttempts);
        trace := trace + calls;
        if !ok && cb.errHandler.Some? {
          var _ := cb.errHandler.value(after);
          trace := trace + [ErrHandler(after)];
        }
      }
    }
    trace := trace + [Ack];
    AckExactlyOnceAndLast(cb, msg, payload);
  }

  // ---------------------------------------------------------------------------------
  // registerJetStreamClient
  // ---------------------------------------------------------------------------------

  /** A downstream client: whether it implements `StreamRegistrar` and what its
      `InitStream` returns, and whether it implements `Subscriber` and what its
      `SubscribeJetStreamEvent` returns (`None` = does not implement it). */
  datatype Client = Client(initStream: Option<Option<Err>>, subscribe: Option<Option<Err>>)

  /** A call on client number `client` of the list; `J` is the JetStream handle. */
  datatype ClientCall<J> =
    | RegisterNATSJetStream(client: nat, js: J)
    | InitStream(client: nat)
    | SubscribeJetStreamEvent(client: nat)

  /** The first phase for clients `from..n`, all handed `js`. */
  function RegisterPhase<J>(js: J, from: nat, n: nat): (r: seq<ClientCall<J>>)
    ensures |r| == if from <= n then n - from else 0
    ensures forall j :: 0 <= j < |r| ==> r[j] == RegisterNATSJetStream(from + j, js)
    decreases n - from
  {
    if from >= n then [] else [RegisterNATSJetStream(from, js)] + RegisterPhase(js, from + 1, n)
  }

  /** The second-phase calls of one client, number `i`, and the first error among them. */
  function ClientSteps<J>(c: Client, i: nat): (seq<ClientCall<J>>, Option<Err>)
  {
    var init := if c.initStream.Some? then [InitStream(i)] else [];
    if c.initStream.Some? && c.initStream.value.Some? then (init, c.initStream.value)
    else if c.subscribe.Some? then (init + [SubscribeJetStreamEvent(i)], c.subscribe.value)
    else (init, None)
  }

  /** One client's steps: `InitStream` exactly when the client implements it;
      `SubscribeJetStreamEvent` exactly when it implements it and `InitStream` did not
      fail; `InitStream` first; and the error is what the last step returned. */
  lemma ClientStepsCalls<J>(c: Client, i: nat)
    ensures InitStream(i) in ClientSteps<J>(c, i).0 <==> c.initStream.Some?
    ensures SubscribeJetStreamEvent(i) in ClientSteps<J>(c, i).0 <==>
              c.subscribe.Some? && !(c.initStream.Some? && c.initStream.value.Some?)
    ensures forall j :: 0 <= j < |ClientSteps<J>(c, i).0| ==>
              ClientSteps<J>(c, i).0[j] == InitStream(i) || ClientSteps<J>(c, i).0[j] == SubscribeJetStreamEvent(i)
    ensures |ClientSteps<J>(c, i).0| == 2 ==>
              ClientSteps<J>(c, i).0 == [InitStream(i), SubscribeJetStreamEvent(i)]
    ensures ClientSteps<J>(c, i).0 == [] ==> ClientSteps<J>(c, i).1.None?
    ensures ClientSteps<J>(c, i).0 == [InitStream(i)] ==> c.initStream.Some? && ClientSteps<J>(c, i).1 == c.initStream.value
    ensures ClientSteps<J>(c, i).0 != [] && ClientSteps<J>(c, i).0 != [InitStream(i)] ==>
              c.subscribe.Some? && ClientSteps<J>(c, i).1 == c.subscribe.value
  {
  }

  /** The second phase from client `i` on: each client in list order, stopping at the first
      error. */
  function SetupPhase<J>(clients: seq<Client>, i: nat): (seq<ClientCall<J>>, Option<Err>)
    decreases |clients| - i
  {
    if i >= |clients| then ([], None)
    else
      var s := ClientSteps<J>(clients[i], i);
      if s.1.Some? then s
      else
        var rest := SetupPhase<J>(clients, i + 1);
        (s.0 + rest.0, rest.1)
  }

  /** `registerJetStreamClient(js, clients)`: the calls made and the error returned. */
  function Registration<J>(js: J, clients: seq<Client>): (r: (seq<ClientCall<J>>, Option<Err>))
    ensures |r.0| >= |clients|
    ensures forall j :: 0 <= j < |clients| ==> r.0[j] == RegisterNATSJetStream(j, js)
  {
    var setup := SetupPhase<J>(clients, 0);
    (RegisterPhase(js, 0, |clients|) + setup.0, setup.1)
  }

  /** What the call `c` returned: the client's own answer for a second-phase call. */
  function Returned<J>(clients: seq<Client>, c: ClientCall<J>): Option<Err>
  {
    if c.RegisterNATSJetStream? || c.client >= |clients| then None
    else if c.InitStream? then
      (if clients[c.client].initStream.Some? then clients[c.client].initStream.value else None)
    else (if clients[c.client].subscribe.Some? then clients[c.client].subscribe.value else None)
  }

  /** The position of a second-phase call in the order clients are processed. */
  function Rank<J>(c: ClientCall<J>): nat
  {
    match c
    case RegisterNATSJetStream(i, _) => 0
    case InitStream(i) => 2 * i
    case SubscribeJetStreamEvent(i) => 2 * i + 1
  }

  /** `c` is a second-phase call on a client of the list that implements that
      capability: the type assertions in front of each call. */
  ghost predicate Implements<J>(clients: seq<Client>, c: ClientCall<J>)
  {
    !c.RegisterNATSJetStream? && c.client < |clients| &&
    (if c.InitStream? then clients[c.client].initStream.Some? else clients[c.client].subscribe.Some?)
  }

  /** Only implemented `InitStream` and `SubscribeJetStreamEvent` calls of clients `lo..`,
      in strictly increasing rank: list order, `InitStream` before
      `SubscribeJetStreamEvent`, each at most once. */
  ghost predicate InListOrder<J>(clients: seq<Client>, t: seq<ClientCall<J>>, lo: nat)
  {
    (forall j :: 0 <= j < |t| ==> Implements(clients, t[j]) && lo <= t[j].client) &&
    (forall a, b :: 0 <= a < b < |t| ==> Rank(t[a]) < Rank(t[b]))
  }

  /** No step is skipped: every implemented capability of a client `lo..` that comes
      before the last call in processing order was called. */
  ghost predicate NoStepSkipped<J>(clients: seq<Client>, t: seq<ClientCall<J>>, lo: nat)
  {
    forall k :: lo <= k < |clients| && |t| > 0 ==>
      (clients[k].initStream.Some? && 2 * k < Rank(t[|t| - 1]) ==> InitStream(k) in t) &&
      (clients[k].subscribe.Some? && 2 * k + 1 < Rank(t[|t| - 1]) ==> SubscribeJetStreamEvent(k) in t)
  }

  /** Every call but the last returned no error; the error `err` is what the last call
      returned; with no error no call returned one. */
  ghost predicate StopsAtFirstError<J>(clients: seq<Client>, t: seq<ClientCall<J>>, err: Option<Err>)
  {
    (forall j :: 0 <= j < |t| - 1 ==> Returned(clients, t[j]).None?) &&
    (err.Some? ==> |t| > 0 && Returned(clients, t[|t| - 1]) == err) &&
    (err.None? ==> forall j :: 0 <= j < |t| ==> Returned(clients, t[j]).None?)
  }

  /** Every capability that a client `lo..` implements was called in `t`. */
  ghost predicate CallsEveryCapability<J>(clients: seq<Client>, t: seq<ClientCall<J>>, lo: nat)
  {
    forall k :: lo <= k < |clients| ==>
      (clients[k].initStream.Some? ==> InitStream(k) in t) &&
      (clients[k].subscribe.Some? ==> SubscribeJetStreamEvent(k) in t)
  }

  /** One client's steps are a run in list order. */
  lemma ClientStepsInOrder<J>(clients: seq<Client>, i: nat)
    requires i < |clients|
    ensures InListOrder(clients, ClientSteps<J>(clients[i], i).0, i)
    ensures forall j :: 0 <= j < |ClientSteps<J>(clients[i], i).0| ==> ClientSteps<J>(clients[i], i).0[j].client == i
  {
    ClientStepsCalls<J>(clients[i], i);
  }

  lemma ConcatInOrder<J>(clients: seq<Client>, a: seq<ClientCall<J>>, b: seq<ClientCall<J>>, i: nat)
    requires InListOrder(clients, a, i) && (forall j :: 0 <= j < |a| ==> a[j].client == i)
    requires InListOrder(clients, b, i + 1)
    ensures InListOrder(clients, a + b, i)
  {
    var t := a + b;
    forall j | 0 <= j < |t| ensures Implements(clients, t[j]) && i <= t[j].client {
      if j < |a| { assert t[j] == a[j]; } else { assert t[j] == b[j - |a|]; }
    }
    forall x, y | 0 <= x < y < |t| ensures Rank(t[x]) < Rank(t[y]) {
      if y < |a| {
        assert t[x] == a[x] && t[y] == a[y];
      } else if x < |a| {
        assert t[x] == a[x] && t[y] == b[y - |a|];
        assert Rank(t[x]) <= 2 * i + 1 && 2 * (i + 1) <= Rank(t[y]);
      } else {
        assert t[x] == b[x - |a|] && t[y] == b[y - |a|];
      }
    }
  }

  lemma {:induction false} SetupPhaseOrder<J>(clients: seq<Client>, i: nat)
    ensures InListOrder(clients, SetupPhase<J>(clients, i).0, i)
    decreases |clients| - i
  {
    if i < |clients| {
      var st := ClientSteps<J>(clients[i], i);
      ClientStepsInOrder<J>(clients, i);
      if st.1.None? {
        SetupPhaseOrder<J>(clients, i + 1);
        ConcatInOrder(clients, st.0, SetupPhase<J>(clients, i + 1).0, i);
        assert SetupPhase<J>(clients, i).0 == st.0 + SetupPhase<J>(clients, i + 1).0;
      } else {
        assert SetupPhase<J>(clients, i).0 == st.0;
      }
    }
  }

  /** A client whose steps fail skipped none of its own steps before the failing one. */
  lemma ClientStepsNoGap<J>(clients: seq<Client>, i: nat)
    requires i < |clients|
    ensures NoStepSkipped(clients, ClientSteps<J>(clients[i], i).0, i)
  {
    ClientStepsCalls<J>(clients[i], i);
    var st := ClientSteps<J>(clients[i], i).0;
    forall k | i <= k < |clients| && |st| > 0
      ensures clients[k].initStream.Some? && 2 * k < Rank(st[|st| - 1]) ==> InitStream(k) in st
      ensures clients[k].subscribe.Some? && 2 * k + 1 < Rank(st[|st| - 1]) ==> SubscribeJetStreamEvent(k) in st
    {
      assert Rank(st[|st| - 1]) <= 2 * i + 1;
      if k == i && 2 * k < Rank(st[|st| - 1]) {
        assert st[|st| - 1] == SubscribeJetStreamEvent(i);
      }
    }
  }

  lemma ConcatNoGap<J>(clients: seq<Client>, a: seq<ClientCall<J>>, b: seq<ClientCall<J>>, i: nat)
    requires i < |clients|
    requires clients[i].initStream.Some? ==> InitStream(i) in a
    requires clients[i].subscribe.Some? ==> SubscribeJetStreamEvent(i) in a
    requires forall j :: 0 <= j < |a| ==> !a[j].RegisterNATSJetStream? && a[j].client == i
    requires NoStepSkipped(clients, b, i + 1)
    ensures NoStepSkipped(clients, a + b, i)
  {
    var t := a + b;
    forall k | i <= k < |clients| && |t| > 0
      ensures clients[k].initStream.Some? && 2 * k < Rank(t[|t| - 1]) ==> InitStream(k) in t
      ensures clients[k].subscribe.Some? && 2 * k + 1 < Rank(t[|t| - 1]) ==> SubscribeJetStreamEvent(k) in t
    {
      if k == i {
        if clients[i].initStream.Some? {
          var x :| 0 <= x < |a| && a[x] == InitStream(i);
          assert t[x] == InitStream(i);
        }
        if clients[i].subscribe.Some? {
          var x :| 0 <= x < |a| && a[x] == SubscribeJetStreamEvent(i);
          assert t[x] == SubscribeJetStreamEvent(i);
        }
      } else if b == [] {
        assert t[|t| - 1] == a[|a| - 1];
        assert Rank(t[|t| - 1]) <= 2 * i + 1;
      } else {
        assert t[|t| - 1] == b[|b| - 1];
        if clients[k].initStream.Some? && 2 * k < Rank(t[|t| - 1]) {
          var x :| 0 <= x < |b| && b[x] == InitStream(k);
          assert t[|a| + x] == InitStream(k);
        }
        if clients[k].subscribe.Some? && 2 * k + 1 < Rank(t[|t| - 1]) {
          var x :| 0 <= x < |b| && b[x] == SubscribeJetStreamEvent(k);
          assert t[|a| + x] == SubscribeJetStreamEvent(k);
        }
      }
    }
  }

  lemma {:induction false} SetupPhaseNoGap<J>(clients: seq<Client>, i: nat)
    ensures NoStepSkipped(clients, SetupPhase<J>(clients, i).0, i)
    decreases |clients| - i
  {
    if i < |clients| {
      var st := ClientSteps<J>(clients[i], i);
      if st.1.None? {
        ClientStepsCalls<J>(clients[i], i);
        SetupPhaseNoGap<J>(clients, i + 1);
        ConcatNoGap(clients, st.0, SetupPhase<J>(clients, i + 1).0, i);
        assert SetupPhase<J>(clients, i).0 == st.0 + SetupPhase<J>(clients, i + 1).0;
      } else {
        ClientStepsNoGap<J>(clients, i);
        assert SetupPhase<J>(clients, i).0 == st.0;
      }
    }
  }

  lemma {:induction false} SetupPhaseReturns<J>(clients: seq<Client>, i: nat)
    ensures StopsAtFirstError(clients, SetupPhase<J>(clients, i).0, SetupPhase<J>(clients, i).1)
    decreases |clients| - i
  {
    if i < |clients| {
      var st := ClientSteps<J>(clients[i], i);
      if st.1.None? {
        SetupPhaseReturns<J>(clients, i + 1);
        var rest := SetupPhase<J>(clients, i + 1);
        var t := st.0 + rest.0;
        assert SetupPhase<J>(clients, i) == (t, rest.1);
        forall j | 0 <= j < |t| && (j < |t| - 1 || rest.1.None?) ensures Returned(clients, t[j]).None? {
          if j < |st.0| { assert t[j] == st.0[j]; } else { assert t[j] == rest.0[j - |st.0|]; }
        }
        if rest.1.Some? {
          assert t[|t| - 1] == rest.0[|rest.0| - 1];
        }
      }
    }
  }

  lemma {:induction false} SetupPhaseComplete<J>(clients: seq<Client>, i: nat)
    ensures SetupPhase<J>(clients, i).1.None? ==> CallsEveryCapability(clients, SetupPhase<J>(clients, i).0, i)
    decreases |clients| - i
  {
    if i < |clients| {
      var st := ClientSteps<J>(clients[i], i);
      if st.1.None? {
        SetupPhaseComplete<J>(clients, i + 1);
        var rest := SetupPhase<J>(clients, i + 1);
        var t := st.0 + rest.0;
        assert SetupPhase<J>(clients, i) == (t, rest.1);
        if rest.1.None? {
          forall k | i <= k < |clients|
            ensures clients[k].initStream.Some? ==> InitStream(k) in t
            ensures clients[k].subscribe.Some? ==> SubscribeJetStreamEvent(k) in t
          {
            if k == i {
              assert clients[k].initStream.Some? ==> t[0] == InitStream(k);
              assert clients[k].subscribe.Some? ==> t[|st.0| - 1] == SubscribeJetStreamEvent(k);
            } else {
              if clients[k].initStream.Some? {
                var x :| 0 <= x < |rest.0| && rest.0[x] == InitStream(k);
                assert t[|st.0| + x] == InitStream(k);
              }
              if clients[k].subscribe.Some? {
                var x :| 0 <= x < |rest.0| && rest.0[x] == SubscribeJetStreamEvent(k);
                assert t[|st.0| + x] == SubscribeJetStreamEvent(k);
              }
            }
          }
        }
      }
    }
  }

  /** `registerJetStreamClient` hands every client the handle, in list order, before any
      `InitStream` or `SubscribeJetStreamEvent`, even when a later step fails; the second
      phase then goes client by client in list order with `InitStream` before
      `SubscribeJetStreamEvent`; the first error ends it and is returned, so no step after
      the failing one runs; with no error every implemented capability was called. */
  lemma RegistrationOrder<J>(js: J, clients: seq<Client>)
    ensures |Registration(js, clients).0| >= |clients|
    ensures Registration(js, clients).0[..|clients|] == RegisterPhase(js, 0, |clients|)
    ensures InListOrder(clients, Registration(js, clients).0[|clients|..], 0)
    ensures NoStepSkipped(clients, Registration(js, clients).0[|clients|..], 0)
    ensures StopsAtFirstError(clients, Registration(js, clients).0[|clients|..], Registration(js, clients).1)
    ensures Registration(js, clients).1.None? ==> CallsEveryCapability(clients, Registration(js, clients).0, 0)
  {
    SetupPhaseOrder<J>(clients, 0);
    SetupPhaseNoGap<J>(clients, 0);
    SetupPhaseReturns<J>(clients, 0);
    SetupPhaseComplete<J>(clients, 0);
    var reg := RegisterPhase(js, 0, |clients|);
    var s := SetupPhase<J>(clients, 0);
    var t := reg + s.0;
    assert t[..|clients|] == reg && t[|clients|..] == s.0;
    if s.1.None? {
      CallsSurvivePrefix(clients, reg, s.0);
    }
  }

  /** Calls made in `t` are still made when other calls come before them. */
  lemma CallsSurvivePrefix<J>(clients: seq<Client>, before: seq<ClientCall<J>>, t: seq<ClientCall<J>>)
    requires CallsEveryCapability(clients, t, 0)
    ensures CallsEveryCapability(clients, before + t, 0)
  {
    forall k | 0 <= k < |clients|
      ensures clients[k].initStream.Some? ==> InitStream(k) in before + t
      ensures clients[k].subscribe.Some? ==> SubscribeJetStreamEvent(k) in before + t
    {
      if clients[k].initStream.Some? {
        var x :| 0 <= x < |t| && t[x] == InitStream(k);
        assert (before + t)[|before| + x] == InitStream(k);
      }
      if clients[k].subscribe.Some? {
        var x :| 0 <= x < |t| && t[x] == SubscribeJetStreamEvent(k);
        assert (before + t)[|before| + x] == SubscribeJetStreamEvent(k);
      }
    }
  }

  /** What the lemmas above prove of the second phase's calls `t` and returned error `err`. */
  ghost predicate SecondPhaseRun<J>(clients: seq<Client>, t: seq<ClientCall<J>>, err: Option<Err>)
  {
    InListOrder(clients, t, 0) && NoStepSkipped(clients, t, 0) && StopsAtFirstError(clients, t, err) &&
    (err.None? ==> CallsEveryCapability(clients, t, 0))
  }

  /** Two second-phase calls of the same rank are the same call. */
  lemma RankIsInjective<J>(a: ClientCall<J>, b: ClientCall<J>)
    requires !a.RegisterNATSJetStream? && !b.RegisterNATSJetStream? && Rank(a) == Rank(b)
    ensures a == b
  {
  }

  /** The calls of a run are exactly the implemented capabilities, all of them when no
      error is returned and, otherwise, those up to the last call in processing order. */
  lemma {:induction false} RunMembership<J>(clients: seq<Client>, t: seq<ClientCall<J>>, err: Option<Err>, c: ClientCall<J>)
    requires SecondPhaseRun(clients, t, err) && !c.RegisterNATSJetStream?
    ensures err.None? ==> (c in t <==> Implements(clients, c))
    ensures err.Some? ==> (c in t <==> Implements(clients, c) && Rank(c) <= Rank(t[|t| - 1]))
  {
    if c in t {
      var x :| 0 <= x < |t| && t[x] == c;
      assert Implements(clients, t[x]);
      if x < |t| - 1 {
        assert Rank(t[x]) < Rank(t[|t| - 1]);
      }
    }
    if Implements(clients, c) {
      var k := c.client;
      if err.Some? && Rank(c) == Rank(t[|t| - 1]) {
        assert Implements(clients, t[|t| - 1]);
        RankIsInjective(c, t[|t| - 1]);
      } else if err.Some? && Rank(c) < Rank(t[|t| - 1]) {
        assert c.InitStream? ==> 2 * k < Rank(t[|t| - 1]);
        assert c.SubscribeJetStreamEvent? ==> 2 * k + 1 < Rank(t[|t| - 1]);
      }
    }
  }

  /** Two runs agree on whether an error is returned, and on the call whose error it is. */
  lemma LastCallIsFirstFailure<J>(clients: seq<Client>, t1: seq<ClientCall<J>>, e1: Option<Err>, t2: seq<ClientCall<J>>, e2: Option<Err>)
    requires SecondPhaseRun(clients, t1, e1) && SecondPhaseRun(clients, t2, e2)
    requires e1.Some?
    ensures e2.Some? && t1[|t1| - 1] == t2[|t2| - 1]
  {
    var l1 := t1[|t1| - 1];
    assert Implements(clients, l1) && Returned(clients, l1).Some?;
    RunMembership(clients, t2, e2, l1);
    if e2.None? {
      assert false;
    }
    var l2 := t2[|t2| - 1];
    assert Implements(clients, l2) && Returned(clients, l2).Some?;
    RunMembership(clients, t1, e1, l2);
    if Rank(l2) < Rank(l1) {
      assert false;
    }
    if Rank(l1) < Rank(l2) {
      assert false;
    }
    RankIsInjective(l1, l2);
  }

  /** Strictly increasing rank. */
  ghost predicate RankSorted<J>(t: seq<ClientCall<J>>)
  {
    forall a, b :: 0 <= a < b < |t| ==> Rank(t[a]) < Rank(t[b])
  }

  /** Every call of `t1` is a call of `t2`. */
  ghost predicate CallsWithin<J>(t1: seq<ClientCall<J>>, t2: seq<ClientCall<J>>)
  {
    forall i :: 0 <= i < |t1| ==> t1[i] in t2
  }

  /** Two nonempty sorted sequences with the same calls start with the same call, and their
      tails have the same calls. */
  lemma SortedHeads<J>(t1: seq<ClientCall<J>>, t2: seq<ClientCall<J>>)
    requires t1 != [] && t2 != []
    requires RankSorted(t1) && RankSorted(t2) && CallsWithin(t1, t2) && CallsWithin(t2, t1)
    ensures t1[0] == t2[0]
  {
    assert t1[0] in t2;
    assert t2[0] in t1;
    var x :| 0 <= x < |t2| && t2[x] == t1[0];
    var y :| 0 <= y < |t1| && t1[y] == t2[0];
    assert Rank(t1[0]) <= Rank(t1[y]);
    assert Rank(t2[0]) <= Rank(t2[x]);
    assert Rank(t2[0]) == Rank(t2[x]);
  }

  lemma SortedTails<J>(t1: seq<ClientCall<J>>, t2: seq<ClientCall<J>>)
    requires t1 != [] && t2 != [] && t1[0] == t2[0]
    requires RankSorted(t1) && RankSorted(t2) && CallsWithin(t1, t2)
    ensures CallsWithin(t1[1..], t2[1..])
  {
    var r1, r2 := t1[1..], t2[1..];
    forall i | 0 <= i < |r1| ensures r1[i] in r2 {
      assert t1[i + 1] in t2;
      var j :| 0 <= j < |t2| && t2[j] == t1[i + 1];
      assert Rank(t1[0]) < Rank(t1[i + 1]);
      assert j != 0;
      assert r2[j - 1] == r1[i];
    }
  }

  lemma NothingWithinEmpty<J>(t1: seq<ClientCall<J>>, t2: seq<ClientCall<J>>)
    requires t1 != [] && t2 == []
    ensures !CallsWithin(t1, t2)
  {
    assert t1[0] !in t2;
  }

  /** Two call sequences in strictly increasing rank with the same calls are equal. */
  lemma {:induction false} SortedByRankUnique<J>(t1: seq<ClientCall<J>>, t2: seq<ClientCall<J>>)
    requires RankSorted(t1) && RankSorted(t2) && CallsWithin(t1, t2) && CallsWithin(t2, t1)
    ensures t1 == t2
  {
    if t1 != [] && t2 != [] {
      SortedHeads(t1, t2);
      SortedTails(t1, t2);
      SortedTails(t2, t1);
      SortedByRankUnique(t1[1..], t2[1..]);
      assert t1 == [t1[0]] + t1[1..] && t2 == [t2[0]] + t2[1..];
    } else if t1 != [] {
      NothingWithinEmpty(t1, t2);
    } else if t2 != [] {
      NothingWithinEmpty(t2, t1);
    }
  }

  /** The second phase as run is a run in the sense of `SecondPhaseRun`. */
  lemma SetupPhaseIsRun<J>(clients: seq<Client>)
    ensures SecondPhaseRun(clients, SetupPhase<J>(clients, 0).0, SetupPhase<J>(clients, 0).1)
  {
    SetupPhaseOrder<J>(clients, 0);
    SetupPhaseNoGap<J>(clients, 0);
    SetupPhaseReturns<J>(clients, 0);
    SetupPhaseComplete<J>(clients, 0);
  }

  /** Two runs over the same clients make the same calls and return the same error. */
  lemma RunsAreEqual<J>(clients: seq<Client>, t1: seq<ClientCall<J>>, e1: Option<Err>, t2: seq<ClientCall<J>>, e2: Option<Err>)
    requires SecondPhaseRun(clients, t1, e1) && SecondPhaseRun(clients, t2, e2)
    ensures t1 == t2 && e1 == e2
  {
    if e1.Some? {
      LastCallIsFirstFailure(clients, t1, e1, t2, e2);
    } else if e2.Some? {
      LastCallIsFirstFailure(clients, t2, e2, t1, e1);
    }
    forall i | 0 <= i < |t1| ensures t1[i] in t2 {
      assert Implements(clients, t1[i]);
      RunMembership(clients, t1, e1, t1[i]);
      RunMembership(clients, t2, e2, t1[i]);
    }
    forall i | 0 <= i < |t2| ensures t2[i] in t1 {
      assert Implements(clients, t2[i]);
      RunMembership(clients, t1, e1, t2[i]);
      RunMembership(clients, t2, e2, t2[i]);
    }
    SortedByRankUnique(t1, t2);
  }

  /** The properties proved above determine the run: the only calls and error meeting
      them are those `registerJetStreamClient` makes and returns. */
  lemma RegistrationIsDetermined<J>(js: J, clients: seq<Client>, t: seq<ClientCall<J>>, err: Option<Err>)
    requires SecondPhaseRun(clients, t, err)
    ensures Registration(js, clients) == (RegisterPhase(js, 0, |clients|) + t, err)
  {
    SetupPhaseIsRun<J>(clients);
    RunsAreEqual(clients, t, err, SetupPhase<J>(clients, 0).0, SetupPhase<J>(clients, 0).1);
  }

  /** The registration tests' three single-client cases: a client implementing both
      capabilities is registered, initialised and subscribed with no error; one whose
      `InitStream` fails was still handed the handle, is never subscribed, and the error is
      returned; one whose `SubscribeJetStreamEvent` fails was handed the handle and
      initialised, and the error is returned. */
  lemma RegistrationTestCases<J>(js: J, e: Err)
    ensures Registration(js, [Client(Some(None), Some(None))]) ==
              ([RegisterNATSJetStream(0, js), InitStream(0), SubscribeJetStreamEvent(0)], None)
    ensures Registration(js, [Client(Some(Some(e)), Some(None))]) ==
              ([RegisterNATSJetStream(0, js), InitStream(0)], Some(e))
    ensures Registration(js, [Client(Some(None), Some(Some(e)))]) ==
              ([RegisterNATSJetStream(0, js), InitStream(0), SubscribeJetStreamEvent(0)], Some(e))
  {
    assert RegisterPhase(js, 0, 1) == [RegisterNATSJetStream(0, js)];
    var ok, initFails, subFails := Client(Some(None), Some(None)), Client(Some(Some(e)), Some(None)), Client(Some(None), Some(Some(e)));
    var init: seq<ClientCall<J>> := [InitStream(0)];
    var both: seq<ClientCall<J>> := [InitStream(0), SubscribeJetStreamEvent(0)];
    assert init + [SubscribeJetStreamEvent(0)] == both;
    assert both + [] == both;
    assert [RegisterNATSJetStream(0, js)] + init == [RegisterNATSJetStream(0, js), InitStream(0)];
    assert [RegisterNATSJetStream(0, js)] + both == [RegisterNATSJetStream(0, js), InitStream(0), SubscribeJetStreamEvent(0)];
    assert SetupPhase<J>([ok], 1) == ([], None);
    assert ClientSteps<J>(ok, 0) == ([InitStream(0), SubscribeJetStreamEvent(0)], None);
    assert SetupPhase<J>([ok], 0) == ([InitStream(0), SubscribeJetStreamEvent(0)], None);
    assert SetupPhase<J>([initFails], 0) == ([InitStream(0)], Some(e));
    assert ClientSteps<J>(subFails, 0) == ([InitStream(0), SubscribeJetStreamEvent(0)], Some(e));
    assert SetupPhase<J>([subFails], 0) == ([InitStream(0), SubscribeJetStreamEvent(0)], Some(e));
  }

  /** One client of the second phase, as an equation the loop below can use. */
  lemma SetupStep<J>(clients: seq<Client>, i: nat, before: seq<ClientCall<J>>)
    requires i < |clients|
    ensures ClientSteps<J>(clients[i], i).1.Some? ==>
              (before + SetupPhase<J>(clients, i).0, SetupPhase<J>(clients, i).1) ==
              (before + ClientSteps<J>(clients[i], i).0, ClientSteps<J>(clients[i], i).1)
    ensures ClientSteps<J>(clients[i], i).1.None? ==>
              (before + SetupPhase<J>(clients, i).0, SetupPhase<J>(clients, i).1) ==
              ((before + ClientSteps<J>(clients[i], i).0) + SetupPhase<J>(clients, i + 1).0, SetupPhase<J>(clients, i + 1).1)
  {
    var st := ClientSteps<J>(clients[i], i);
    var rest := SetupPhase<J>(clients, i + 1);
    assert (before + st.0) + rest.0 == before + (st.0 + rest.0);
  }

  /** `registerJetStreamClient` as the two loops of the Go code, the second left at the first
      error. */
  method RegisterJetStreamClient<J>(js: J, clients: seq<Client>) returns (err: Option<Err>, trace: seq<ClientCall<J>>)
    ensures (trace, err) == Registration(js, clients)
  {
    trace := [];
    var i := 0;
    while i < |clients|
      invariant 0 <= i <= |clients|
      invariant |trace| == i
      invariant forall j :: 0 <= j < i ==> trace[j] == RegisterNATSJetStream(j, js)
    {
      trace := trace + [RegisterNATSJetStream(i, js)];
      i := i + 1;
    }
    ghost var registered := trace;
    assert registered == RegisterPhase(js, 0, |clients|);
    ghost var done: seq<ClientCall<J>> := [];
    assert done + SetupPhase<J>(clients, 0).0 == SetupPhase<J>(clients, 0).0;
    i := 0;
    while i < |clients|
      invariant 0 <= i <= |clients|
      invariant registered == RegisterPhase(js, 0, |clients|)
      invariant trace == registered + done
      invariant SetupPhase<J>(clients, 0) == (done + SetupPhase<J>(clients, i).0, SetupPhase<J>(clients, i).1)
    {
      var c := clients[i];
      SetupStep<J>(clients, i, done);
      ghost var steps := ClientSteps<J>(c, i);
      ghost var before := done;
      if c.initStream.Some? {
        trace, done := trace + [InitStream(i)], done + [InitStream(i)];
        if c.initStream.value.Some? {
          assert steps == ([InitStream(i)], c.initStream.value);
          assert done == before + steps.0;
          assert SetupPhase<J>(clients, 0) == (done, c.initStream.value);
          assert trace == registered + done;
          return c.initStream.value, trace;
        }
      }
      if c.subscribe.Some? {
        trace, done := trace + [SubscribeJetStreamEvent(i)], done + [SubscribeJetStreamEvent(i)];
        if c.subscribe.value.Some? {
          assert done == before + steps.0 && steps.1 == c.subscribe.value;
          assert SetupPhase<J>(clients, 0) == (done, c.subscribe.value);
          assert trace == registered + done;
          return c.subscribe.value, trace;
        }
      }
      assert done == before + steps.0 && steps.1.None?;
      i := i + 1;
    }
    assert done + [] == done;
    return None, trace;
  }
}
