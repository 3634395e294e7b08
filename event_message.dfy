/** The event envelope of event_message.go: the `NatsEvent` identity record with its
    nil-safe getters, and the fluent `NatsEventMessage` builder whose steps record a
    sticky error that `Build` refuses to serialise past.

    The foreign codecs are parameters: `utils.Dump` is a total function to a string,
    `tapao.Marshal` / `tapao.Unmarshal` (protobuf, msgpack or JSON) are functions that may
    fail. */
module EventMessage {
  import opened Wrappers
  import opened GoTypes
  import opened Errors

  /** The identity record `NatsEvent`. `Option<NatsEvent>` stands for `*NatsEvent`,
      with `None` for a nil pointer. */
  datatype NatsEvent = NatsEvent(id: int64, idStr: string, userId: int64, tenantId: int64, subject: string)

  function GetID(n: Option<NatsEvent>): (r: int64)
    ensures n.None? ==> r == 0
    ensures n.Some? ==> r == n.value.id
  {
    if n.None? then 0 else n.value.id
  }

  function GetUserID(n: Option<NatsEvent>): (r: int64)
    ensures n.None? ==> r == 0
    ensures n.Some? ==> r == n.value.userId
  {
    if n.None? then 0 else n.value.userId
  }

  function GetTenantID(n: Option<NatsEvent>): (r: int64)
    ensures n.None? ==> r == 0
    ensures n.Some? ==> r == n.value.tenantId
  {
    if n.None? then 0 else n.value.tenantId
  }

  function GetSubject(n: Option<NatsEvent>): (r: string)
    ensures n.None? ==> r == ""
    ensures n.Some? ==> r == n.value.subject
  {
    if n.None? then "" else n.value.subject
  }

  function GetIDStr(n: Option<NatsEvent>): (r: string)
    ensures n.None? ==> r == ""
    ensures n.Some? ==> r == n.value.idStr
  {
    if n.None? then "" else n.value.idStr
  }

  /** The messages of the builder's own validation errors, as `errors.New` makes them. */
  const EmptyId: Err := New("empty id")
  const EmptyUserId: Err := New("empty user id")
  const EmptyNatsEvent: Err := New("empty nats nats event")

  /** The identity checks of `WithEvent`, in their order: the error it records, or `None`
      when the event is accepted. The identity check comes first, so an event failing both
      is reported only as "empty id". */
  function CheckEvent(e: Option<NatsEvent>): (r: Option<Err>)
    ensures r == Some(EmptyId) <==> GetID(e) <= 0 && GetIDStr(e) == ""
    ensures r == Some(EmptyUserId) <==> (GetID(e) > 0 || GetIDStr(e) != "") && GetUserID(e) == 0
    ensures r.None? <==> (GetID(e) > 0 || GetIDStr(e) != "") && GetUserID(e) != 0
    ensures e.None? ==> r == Some(EmptyId)
  {
    if GetID(e) <= 0 && GetIDStr(e) == "" then Some(EmptyId)
    else if GetUserID(e) == 0 then Some(EmptyUserId)
    else None
  }

  /** What `Build` returns, `(data, err)`, and the message afterwards. */
  datatype Built = Built(data: Option<Bytes>, err: Option<Err>, after: Message)

  /** What `ParseFromBytes` returns and the message afterwards. */
  datatype Parsed = Parsed(err: Option<Err>, after: Message)

  /** The marshaller `tapao.Marshal(n)` that `Build` uses. */
  type Marshaller = Message -> Result<Bytes, Err>

  /** `tapao.Unmarshal(data, &n, ...)`: it sees the bytes and the message it decodes into
      (a decoder may keep fields the input does not mention). */
  type Unmarshaller = (Bytes, Message) -> Result<Message, Err>

  /** The value of a `NatsEventMessage` record, and each builder step as a function of it. */
  datatype Message = Message(natsEvent: Option<NatsEvent>, body: string, oldBody: string, request: Bytes, error: Option<Err>)
  {
    /** `wrapError(err)`: the new failure is folded into the recorded one; nothing else changes. */
    function WrapError(err: Err): (r: Message)
      ensures r.error.Some?
      ensures error.None? ==> r.error == Some(err)
      ensures error.Some? ==> IsCause(error.value, r.error.value) && Root(r.error.value) == Root(error.value)
      ensures error.Some? ==> Text(r.error.value) == Text(err) + ": " + Text(error.value)
      ensures r.(error := error) == this
    {
      this.(error := Some(Fold(error, err)))
    }

    /** `WithEvent(e)`: an event that fails a check records that check's error and leaves the
        stored event as it was; an accepted event is stored and adds no error. No other field
        changes, and an error recorded earlier does not stop an accepted event being stored. */
    function WithEvent(e: Option<NatsEvent>): (r: Message)
      ensures CheckEvent(e).None? ==> r.natsEvent == e && r.error == error
      ensures CheckEvent(e).Some? ==> r.natsEvent == natsEvent && r.error == Some(Fold(error, CheckEvent(e).value))
      ensures r.body == body && r.oldBody == oldBody && r.request == request
    {
      if GetID(e) <= 0 && GetIDStr(e) == "" then WrapError(EmptyId)
      else if GetUserID(e) == 0 then WrapError(EmptyUserId)
      else this.(natsEvent := e)
    }

    /** `WithBody(v)` with `dumped == utils.Dump(v)`: only the body changes. */
    function WithBody(dumped: string): (r: Message)
      ensures r.body == dumped && r.(body := body) == this
    {
      this.(body := dumped)
    }

    /** `WithOldBody(v)` with `dumped == utils.Dump(v)`: only the old body changes. */
    function WithOldBody(dumped: string): (r: Message)
      ensures r.oldBody == dumped && r.(oldBody := oldBody) == this
    {
      this.(oldBody := dumped)
    }

    /** `WithRequest(req)` where `encoded` is what the protobuf marshaller made of `req`: on
        success only the request changes; on failure only the error does and the request is
        kept. */
    function WithRequest(encoded: Result<Bytes, Err>): (r: Message)
      ensures encoded.Success? ==> r == this.(request := encoded.value)
      ensures encoded.Failure? ==> r.request == request && r == WrapError(encoded.error)
    {
      if encoded.Failure? then WrapError(encoded.error) else this.(request := encoded.value)
    }

    /** `Build()`: a recorded error is returned as it is, the codec untouched and the
        message unchanged; with no error but no event, "empty nats nats event" is recorded
        and returned; otherwise the codec's bytes are returned, or its failure is recorded
        and returned. Data and error are never both present or both absent. */
    function Build(marshal: Marshaller): (b: Built)
      ensures error.Some? ==> b == Built(None, error, this)
      ensures error.None? && natsEvent.None? ==> b == Built(None, Some(EmptyNatsEvent), this.(error := Some(EmptyNatsEvent)))
      ensures b.data.Some? <==> error.None? && natsEvent.Some? && marshal(this).Success?
      ensures b.data.Some? ==> b.data.value == marshal(this).value && b.err.None? && b.after == this
      ensures b.data.None? ==> b.err.Some? && b.after.error == b.err && b.after.(error := error) == this
      ensures error.None? && natsEvent.Some? && marshal(this).Failure? ==> b.err == Some(marshal(this).error)
    {
      if error.Some? then Built(None, error, this)
      else if natsEvent.None? then
        var m := WrapError(EmptyNatsEvent);
        Built(None, m.error, m)
      else
        match marshal(this)
        case Failure(e) =>
          var m := WrapError(e);
          Built(None, m.error, m)
        case Success(bytes) => Built(Some(bytes), None, this)
    }

    /** `ParseFromBytes(data)`: on success the decoded message replaces this one; on failure
        the codec's error is returned and the stored error becomes `errors.Wrap(error, ...)`,
        which stays nil when no error was recorded before. */
    function ParseFromBytes(data: Bytes, unmarshal: Unmarshaller): (p: Parsed)
      ensures unmarshal(data, this).Success? ==> p == Parsed(None, unmarshal(data, this).value)
      ensures unmarshal(data, this).Failure? ==>
                p.err == Some(unmarshal(data, this).error) && p.after.(error := error) == this
      ensures unmarshal(data, this).Failure? ==>
                (p.after.error.None? <==> error.None?) &&
                (error.Some? ==> IsCause(error.value, p.after.error.value))
      ensures unmarshal(data, this).Failure? && error.Some? ==>
                p.after.error.value.Wrapped? && p.after.error.value.cause == error.value &&
                Text(p.after.error.value) == Text(unmarshal(data, this).error) + ": " + Text(error.value)
    {
      match unmarshal(data, this)
      case Failure(e) => Parsed(Some(e), this.(error := Wrap(error, Text(e))))
      case Success(decoded) => Parsed(None, decoded)
    }

    /** `AddSubject(subj)`: the stored event's subject is set. Go dereferences the event
        pointer, so a message without an event panics; that is this precondition. */
    function AddSubject(subj: string): (r: Message)
      requires natsEvent.Some?
      ensures r.natsEvent.Some? && GetSubject(r.natsEvent) == subj
      ensures r.natsEvent.value.(subject := natsEvent.value.subject) == natsEvent.value
      ensures r.(natsEvent := natsEvent) == this
    {
      this.(natsEvent := Some(natsEvent.value.(subject := subj)))
    }
  }

  /** `NewNatsEventMessage()`: the zero record. */
  const Empty: Message := Message(None, "", "", [], None)

  /** One call of the fluent chain, with the foreign codec's outcome already applied. */
  datatype Step =
    | SetEvent(e: Option<NatsEvent>)
    | SetBody(dumped: string)
    | SetOldBody(dumped: string)
    | SetRequest(encoded: Result<Bytes, Err>)

  function Apply(m: Message, s: Step): Message
  {
    match s
    case SetEvent(e) => m.WithEvent(e)
    case SetBody(d) => m.WithBody(d)
    case SetOldBody(d) => m.WithOldBody(d)
    case SetRequest(enc) => m.WithRequest(enc)
  }

  /** The message after the steps of a chain, left to right. */
  function Chain(m: Message, steps: seq<Step>): Message
    decreases |steps|
  {
    if steps == [] then m else Chain(Apply(m, steps[0]), steps[1..])
  }

  /** The error is sticky: once recorded, no step of the chain clears it or loses its first
      cause, and `Build` then returns it without touching the codec. */
  lemma {:induction false} ErrorIsSticky(m: Message, steps: seq<Step>, marshal: Marshaller)
    requires m.error.Some?
    ensures Chain(m, steps).error.Some?
    ensures IsCause(m.error.value, Chain(m, steps).error.value)
    ensures Root(Chain(m, steps).error.value) == Root(m.error.value)
    ensures Chain(m, steps).Build(marshal) == Built(None, Chain(m, steps).error, Chain(m, steps))
    decreases |steps|
  {
    if steps != [] {
      var next := Apply(m, steps[0]);
      assert next.error.Some? && IsCause(m.error.value, next.error.value);
      ErrorIsSticky(next, steps[1..], marshal);
      IsCauseTransitive(m.error.value, next.error.value, Chain(m, steps).error.value);
      CauseHasSameRoot(m.error.value, Chain(m, steps).error.value);
    }
  }

  /** A chain in which no `WithEvent` is accepted leaves the event nil, so `Build` yields no
      data whatever the codec, and the chain's error is never absent afterwards. */
  lemma {:induction false} NoAcceptedEventNoBytes(m: Message, steps: seq<Step>, marshal: Marshaller)
    requires m.natsEvent.None?
    requires forall i :: 0 <= i < |steps| && steps[i].SetEvent? ==> CheckEvent(steps[i].e).Some?
    ensures Chain(m, steps).natsEvent.None?
    ensures Chain(m, steps).Build(marshal).data.None?
    ensures Chain(m, steps).Build(marshal).after.error.Some?
    decreases |steps|
  {
    if steps != [] {
      NoAcceptedEventNoBytes(Apply(m, steps[0]), steps[1..], marshal);
    }
  }

  /** The missing-event cases of the builder's tests: a fresh message, and fresh messages
      given a nil event, an event with a user but no id, and one with an id but no user:
      `Build` returns an error and no data, and the rejected event is never stored. */
  lemma MissingEventCases(marshal: Marshaller)
    ensures Empty.Build(marshal).data.None? && Empty.Build(marshal).err == Some(EmptyNatsEvent)
    ensures Empty.WithEvent(None).natsEvent.None?
    ensures Empty.WithEvent(None).Build(marshal) == Built(None, Some(EmptyId), Empty.WithEvent(None))
    ensures Empty.WithEvent(Some(NatsEvent(0, "", 131, 0, ""))).Build(marshal).err == Some(EmptyId)
    ensures Empty.WithEvent(Some(NatsEvent(21, "", 0, 0, ""))).Build(marshal).err == Some(EmptyUserId)
  {
  }

  /** What a successful `Build` serialised carries no error, so a codec pair where decoding
      inverts encoding (whatever the message decoded into) gives back exactly the built
      message. */
  lemma BuildThenParse(m: Message, marshal: Marshaller, unmarshal: Unmarshaller, target: Message)
    requires forall w: Message, prior: Message :: marshal(w).Success? ==> unmarshal(marshal(w).value, prior) == Success(w)
    requires m.Build(marshal).data.Some?
    ensures m.error.None? && m.natsEvent.Some?
    ensures target.ParseFromBytes(m.Build(marshal).data.value, unmarshal) == Parsed(None, m)
  {
  }

  /** The envelope record as a mutable Go object: each method changes the record as the
      matching member of `Message` says. */
  class NatsEventMessage {
    var natsEvent: Option<NatsEvent>
    var body: string
    var oldBody: string
    var request: Bytes
    var error: Option<Err>

    function State(): Message
      reads this
    {
      Message(natsEvent, body, oldBody, request, error)
    }

    /** `NewNatsEventMessage()`. */
    constructor ()
      ensures State() == Empty
    {
      natsEvent, body, oldBody, request, error := None, "", "", [], None;
    }

    method WrapError(err: Err)
      modifies this
      ensures State() == old(State()).WrapError(err)
    {
      if error.Some? {
        error := Some(Wrapped(error.value, Text(err)));
        return;
      }
      error := Some(err);
    }

    method WithEvent(e: Option<NatsEvent>) returns (self: NatsEventMessage)
      modifies this
      ensures self == this
      ensures State() == old(State()).WithEvent(e)
    {
      if GetID(e) <= 0 && GetIDStr(e) == "" {
        WrapError(EmptyId);
        return this;
      }
      if GetUserID(e) == 0 {
        WrapError(EmptyUserId);
        return this;
      }
      natsEvent := e;
      return this;
    }

    method WithBody<V>(value: V, dump: V -> string) returns (self: NatsEventMessage)
      modifies this
      ensures self == this
      ensures State() == old(State()).WithBody(dump(value))
    {
      body := dump(value);
      return this;
    }

    method WithOldBody<V>(value: V, dump: V -> string) returns (self: NatsEventMessage)
      modifies this
      ensures self == this
      ensures State() == old(State()).WithOldBody(dump(value))
    {
      oldBody := dump(value);
      return this;
    }

    method WithRequest<R>(req: R, marshal: R -> Result<Bytes, Err>) returns (self: NatsEventMessage)
      modifies this
      ensures self == this
      ensures State() == old(State()).WithRequest(marshal(req))
    {
      var b := marshal(req);
      if b.Failure? {
        WrapError(b.error);
        return this;
      }
      request := b.value;
      return this;
    }

    method Build(marshal: Marshaller) returns (data: Option<Bytes>, err: Option<Err>)
      modifies this
      ensures Built(data, err, State()) == old(State()).Build(marshal)
    {
      if error.Some? {
        return None, error;
      }
      if natsEvent.None? {
        WrapError(EmptyNatsEvent);
        return None, error;
      }
      var message := marshal(State());
      if message.Failure? {
        WrapError(message.error);
        return None, error;
      }
      return Some(message.value), None;
    }

    method ParseFromBytes(data: Bytes, unmarshal: Unmarshaller) returns (err: Option<Err>)
      modifies this
      ensures Parsed(err, State()) == old(State()).ParseFromBytes(data, unmarshal)
    {
      var decoded := unmarshal(data, State());
      if decoded.Failure? {
        error := Wrap(error, Text(decoded.error));
        return Some(decoded.error);
      }
      natsEvent, body, oldBody, request, error :=
        decoded.value.natsEvent, decoded.value.body, decoded.value.oldBody, decoded.value.request, decoded.value.error;
      return None;
    }

    method AddSubject(subj: string)
      requires natsEvent.Some?
      modifies this
      ensures State() == old(State()).AddSubject(subj)
    {
      natsEvent := Some(natsEvent.value.(subject := subj));
    }
  }
}
