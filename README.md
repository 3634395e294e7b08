# ferstream core in Dafny

This project models the two sequential parts of the ferstream Go package and proves the properties its code promises.

- **Event envelope (event_message.go).** The `NatsEvent` identity record comes with nil-safe getters. The `NatsEventMessage` builder is a mutable record:
  - `WithEvent`, `WithBody`, `WithOldBody` and `WithRequest` fill it in place;
  - `wrapError` folds every failure into one sticky error;
  - `Build` will not serialise while an error is recorded or no event is set;
  - `ParseFromBytes` and `AddSubject` serve the consumer side.

  The record's value is the datatype `Message`, and each operation is a member of it. `NatsEventMessage` is the class with the record's fields. Each of its methods is proved to change its fields exactly as the matching `Message` member says.
- **Broker adapter (jetstream.go).**
  - **Connection gate.** `Publish`, `QueueSubscribe`, `Subscribe`, `AddStream` and `ConsumerInfo` answer `ErrConnectionLost` without touching the JetStream context unless the connection is present and connected. `AddStream` chooses between add and update.
  - **Delivery callback.** `NewNATSMessageHandler` builds a callback:
    - the acknowledgement is deferred;
    - nil data is dropped, and so is a failed parse;
    - a parsed payload gets its subject tag;
    - the handler is retried;
    - a fallback runs after every attempt has failed.
  - **Registration.** `registerJetStreamClient` runs two phases over the client list.

  The broker, the payload's methods, the user's handlers and the clients are code the model cannot see, so they are function parameters. What the package does with them is recorded as a trace of calls. The callback and the registration are methods with loops: `HandleMsg` with `RetryLoop`, and `RegisterJetStreamClient`. Each is proved equal to a specification function (`Deliver`, `Retry`, `Registration`), and the lemmas state what the Go code promises about those functions.
- **Errors (errors.go).** The sentinel errors, `errors.New`, pkg/errors' `Wrap`, and the fold `wrapError` performs (`Errors.Fold`).

Modules: `Wrappers` (Option, Result), `GoTypes` (`int64`, `byte`, `Bytes`), `Errors`, `EventMessage`, `JetStream`.

Where a reader might expect otherwise, the model follows the code:
- **Builder steps ignore the recorded error.** `WithEvent`, `WithBody`, `WithOldBody` and `WithRequest` do not check it. For example, an accepted event is stored even after an error.
- **A failed `ParseFromBytes` with no prior error stores nil.** It sets `Error` to `errors.Wrap(Error, msg)`, and that is nil when no error was recorded. Only the returned error signals the failure.
- **`NatsEvent` has no timestamp.** The tests mention one, but the code has no such field and checks nothing of the kind.

## Model

| member | source | states |
|---|---|---|
| Errors.Wrap | event_message.go:154 | pkg/errors' `Wrap`: nil exactly when the cause is nil; otherwise a wrapper that keeps the cause and whose text is the message, ": " and the cause's text |
| Errors.Fold | event_message.go:143-149 | the error `wrapError` records: the new error when none was recorded; otherwise a new wrapper whose cause is the old error, with the same root cause, and whose text is the new error's text, ": " and the old error's text |
| Errors.FoldAll | event_message.go:143-149 | after a series of `wrapError` calls, the recorded error is nil only when it was nil and there were no calls |
| Errors.CauseTextIsSuffix | event_message.go:145 | an error's text ends with the text of each error it wraps |
| Errors.FoldAllText | event_message.go:143-149 | after a series of `wrapError` calls over a recorded error, the recorded error's text is the whole failure path on one line: each later failure's text followed by ": ", latest first, then the first recorded error's text |
| Errors.RecordedErrorIsNeverLost | event_message.go:143-149 | however many failures follow, a recorded error is never reset: it stays a cause of the recorded error, keeps its root and keeps its text as a suffix |
| Errors.FirstFailureIsRoot | event_message.go:143-149 | starting from no error, the first failure recorded is the root cause of the final error |
| EventMessage.GetID | event_message.go:39-44 | nil-safe: 0 for a nil event, otherwise the `ID` field |
| EventMessage.GetUserID | event_message.go:47-52 | nil-safe: 0 for a nil event, otherwise the `UserID` field |
| EventMessage.GetTenantID | event_message.go:55-60 | nil-safe: 0 for a nil event, otherwise the `TenantID` field |
| EventMessage.GetSubject | event_message.go:63-68 | nil-safe: "" for a nil event, otherwise the `Subject` field |
| EventMessage.GetIDStr | event_message.go:71-76 | nil-safe: "" for a nil event, otherwise the `IDStr` field |
| EventMessage.CheckEvent | event_message.go:105-113 | "empty id" exactly when `ID <= 0` and `IDStr == ""`; "empty user id" exactly when the identity passes and `UserID == 0`; no error exactly when both pass; a nil event is always "empty id" |
| EventMessage.Message.WrapError | event_message.go:143-149 | the recorded error becomes non-nil: the new error if none was recorded, otherwise a wrapper over the old one with the same root, whose text is the new error's text, ": " and the old text; no other field changes |
| EventMessage.Message.WithEvent | event_message.go:104-117 | an accepted event is stored and adds no error, even when an error was recorded before; a rejected event records the failed check's error and leaves the stored event alone; body, old body and request never change |
| EventMessage.Message.WithBody | event_message.go:120-123 | only `Body` changes, to the dumped value |
| EventMessage.Message.WithOldBody | event_message.go:126-129 | only `OldBody` changes, to the dumped value |
| EventMessage.Message.WithRequest | event_message.go:132-141 | if encoding succeeds, only `Request` changes; if it fails, only `Error` changes (folded) and `Request` is kept |
| EventMessage.Message.Build | event_message.go:84-101 | a recorded error is returned unchanged, with no data, no codec call and no change to the record; otherwise, with no event, "empty nats nats event" is recorded and returned; data comes back exactly when there is no error, there is an event and the codec succeeds, and then nothing changes; when no data comes back, the error returned is the one now recorded and only `Error` changed; when the codec fails on an error-free message with an event, the error returned is the codec's own |
| EventMessage.Message.ParseFromBytes | event_message.go:151-158 | on decode success the decoded record replaces the message and no error is returned; on failure the codec's error is returned, only `Error` changes, it stays nil when it was nil, and otherwise it becomes a new wrapper whose cause is the old error and whose text is the decode error's text, ": " and the old text |
| EventMessage.Message.AddSubject | event_message.go:160-162 | the stored event's subject becomes `subj` and nothing else changes; requires an event, because Go dereferences the pointer |
| EventMessage.ErrorIsSticky | event_message.go:85-87 | once an error is recorded, no chain of builder steps clears it or loses its first cause, and `Build` then returns it with no data and leaves the record unchanged |
| EventMessage.NoAcceptedEventNoBytes | event_message.go:89-92 | if no `WithEvent` was accepted, a fresh chain keeps the event nil, so `Build` returns no data for any codec and an error is recorded |
| EventMessage.MissingEventCases | event_message_test.go:178-197 | the "missing nats event" test cases: a fresh message, and fresh messages given a nil event, a user-only event and an id-only event, all build to an error and no data; the nil event is never stored |
| EventMessage.BuildThenParse | event_message.go:94-100 | bytes from a successful `Build` come only from an error-free message with an event; given a codec pair whose decoder inverts its encoder, parsing those bytes gives back exactly the built message |
| EventMessage.NatsEventMessage.constructor | event_message.go:79-81 | `NewNatsEventMessage` gives the zero record |
| EventMessage.NatsEventMessage.WrapError | event_message.go:143-149 | the fields change exactly as `Message.WrapError` says |
| EventMessage.NatsEventMessage.WithEvent | event_message.go:104-117 | returns the receiver; the fields change exactly as `Message.WithEvent` says |
| EventMessage.NatsEventMessage.WithBody | event_message.go:120-123 | returns the receiver; the fields change exactly as `Message.WithBody` says for the dumped value |
| EventMessage.NatsEventMessage.WithOldBody | event_message.go:126-129 | returns the receiver; the fields change exactly as `Message.WithOldBody` says for the dumped value |
| EventMessage.NatsEventMessage.WithRequest | event_message.go:132-141 | returns the receiver; the fields change exactly as `Message.WithRequest` says for the encoder's outcome |
| EventMessage.NatsEventMessage.Build | event_message.go:84-101 | the returned data and error, and the new fields, are exactly those of `Message.Build` |
| EventMessage.NatsEventMessage.ParseFromBytes | event_message.go:151-158 | the returned error and the new fields are exactly those of `Message.ParseFromBytes` |
| EventMessage.NatsEventMessage.AddSubject | event_message.go:160-162 | the fields change exactly as `Message.AddSubject` says |
| JetStream.Delegate | jetstream.go:58-61 | the gate: with no usable connection, no context call and `ErrConnectionLost`; otherwise exactly one call, whose reply is returned |
| JetStream.Publish | jetstream.go:57-62 | gated: no call and `ErrConnectionLost` when the connection is nil or not connected; otherwise a single publish with the same subject, data and options, whose reply is returned |
| JetStream.QueueSubscribe | jetstream.go:65-70 | gated like `Publish`; otherwise a single queue subscription with the same arguments |
| JetStream.Subscribe | jetstream.go:73-78 | gated like `Publish`; otherwise a single subscription with the same arguments |
| JetStream.ConsumerInfo | jetstream.go:97-103 | gated like `Publish`; otherwise a single consumer lookup with the same arguments |
| JetStream.AddStream | jetstream.go:81-94 | gated like `Publish`; otherwise a stream lookup by name, then an add with the options when the lookup found no stream, or an update without options when it did; the second call's reply is returned |
| JetStream.AddStreamIgnoresLookupError | jetstream.go:86 | the lookup's error is discarded: two contexts that differ only in that error give the same calls and reply |
| JetStream.Retry | jetstream.go:135-137 | the retry policy: at most N calls, on attempts numbered 1, 2, … with the same payload; every call but the last failed; it succeeds exactly when the last call returned nil; if it fails, all N attempts were made |
| JetStream.RetryHasNoOtherCalls | jetstream.go:135-137 | the retry makes only handler calls |
| JetStream.RetryLoop | jetstream.go:135-140 | the attempt loop makes exactly the calls of `Retry` and reports the same success |
| JetStream.Deliver | jetstream.go:111-161 | one run of the callback as a function: the trace ends with `Ack`; nil data gives only `Ack` and leaves the payload alone; otherwise the parse is the first call; after a successful parse the payload ends up tagged with the subject |
| JetStream.HandleMsg | jetstream.go:111-161 | one run of the callback: its calls and the payload's final state are those of `Deliver`, and `Ack` is the last call and happens exactly once |
| JetStream.AckExactlyOnceAndLast | jetstream.go:114-119 | on every path, `Ack` happens exactly once and is the last call |
| JetStream.DroppedDeliveries | jetstream.go:121-130 | nil data leads only to `Ack`; a failed parse leads only to the parse and `Ack`, with no handler or fallback call |
| JetStream.SubjectTaggedBeforeHandlers | jetstream.go:132-137 | after a successful parse, the subject is tagged exactly once, right after the parse and before any handler call; every handler and fallback call gets the tagged payload |
| JetStream.ParsedDeliveryShape | jetstream.go:135-153 | after a successful parse, the handler calls are exactly the retry's calls; the fallback is called once if every attempt failed and one is set, and otherwise never |
| JetStream.SuccessOnAttempt | jetstream.go:135-140 | a handler that first succeeds on attempt k ≤ N is called exactly k times, on attempts 1..k, and the fallback is not called |
| JetStream.Exhaustion | jetstream.go:142-153 | if all N attempts fail, there are N handler calls and one fallback call when a fallback is set; with none set, no fallback call |
| JetStream.FallbackErrorNotPropagated | jetstream.go:153-159 | the fallback's result changes nothing: the same calls and the same final payload whatever it returns |
| JetStream.RegisterPhase | jetstream.go:220-222 | the first loop: one `RegisterNATSJetStream(js)` per client, in list order |
| JetStream.ClientStepsCalls | jetstream.go:225-239 | one client's turn: `InitStream` is called exactly when the client implements it; `SubscribeJetStreamEvent` exactly when the client implements it and `InitStream` did not fail; `InitStream` comes first; the error returned is that of the last call, and none when nothing was called |
| JetStream.SetupPhaseOrder | jetstream.go:224-240 | the second loop calls only capabilities the client implements, client by client in list order, `InitStream` before `SubscribeJetStreamEvent`, each at most once |
| JetStream.SetupPhaseNoGap | jetstream.go:224-242 | the second loop skips no step: every implemented capability that comes before the last call in processing order was called |
| JetStream.SetupPhaseReturns | jetstream.go:224-242 | every second-phase call but the last returned nil; the error returned is the last call's; if none is returned, no call failed |
| JetStream.SetupPhaseComplete | jetstream.go:233-242 | if no error is returned, every implemented capability of every client was called |
| JetStream.Registration | jetstream.go:219-243 | the run as a function: its first calls are `RegisterNATSJetStream(js)` for every client, in list order |
| JetStream.RegistrationOrder | jetstream.go:219-243 | every client is handed `js`, in list order, before any second-phase call, even when a later step fails; the second phase calls only implemented capabilities, keeps list order, skips no step before its last call, stops at the first error and returns it; with no error, every capability was called |
| JetStream.RunMembership | jetstream.go:224-242 | in any second-phase run with those properties, a call is made exactly when the client implements that capability and, when an error is returned, it comes no later than the failing call in processing order |
| JetStream.LastCallIsFirstFailure | jetstream.go:224-242 | two runs with those properties over the same clients agree that an error is returned, and on the call that returned it |
| JetStream.RunsAreEqual | jetstream.go:224-242 | two runs with those properties over the same clients make the same calls and return the same error |
| JetStream.SetupPhaseIsRun | jetstream.go:224-242 | the second loop's calls and error have all those properties |
| JetStream.RegistrationIsDetermined | jetstream.go:219-243 | those properties pin the run down: any calls and error meeting them are exactly what `registerJetStreamClient` makes and returns |
| JetStream.RegistrationTestCases | jetstream_test.go:437-466 | the registration tests' cases: success; an `InitStream` failure after the handle was given, with subscribe skipped; a subscribe failure after init; the error is returned in each failing case |
| JetStream.RegisterJetStreamClient | jetstream.go:219-243 | the two loops, the second left at the first error, make exactly the calls of `Registration` and return the same error |

## Left out

- Connection setup: `NewNATSConnection` and `initJetStreamClients` (jetstream.go:184-264) dial the network and install reconnect and close callbacks. Reconnecting re-runs registration, which `RegisterJetStreamClient` already models.
- `SafeClose` (jetstream.go:164-181): it drains and closes the connection, which is network I/O.
- `GetNATSConnection` (jetstream.go:49-54): it is an accessor with no rule beyond nil-safety.
- Logging: every logrus call, including the deferred payload warning at jetstream.go:133, is a side effect with no contract.
- Retry timing: the sleep between attempts is a wall-clock delay, so only the attempt count is modelled.
- Codecs: the internals of `tapao.Marshal`/`Unmarshal`, protobuf and `utils.Dump` are foreign libraries. They are function parameters that may fail; `Dump` never fails.
  - The JSON round trip is stated only relative to an assumed inverse codec pair (`BuildThenParse`).
- `ToJSONString`, `ToJSONByte` and `ParseJSON` (event_message.go:165-180) are direct calls of the JSON codec, which is a parameter here.
- `Bytes`: a Go `[]byte` is a sequence here, so a nil slice and an empty one are the same value. In the JSON encoding of `Request` they differ (`null` against `""`); the codec parameter cannot see that difference.
- `NatsEvent` is a value in the model, not a pointer. Aliasing between the caller's struct and the stored event is lost, such as `AddSubject` being visible through the caller's pointer.
- EventMessage.Message.ParseFromBytes: the decoder's outcome is all-or-nothing. A partially decoded record left behind after a failure is not modelled. Neither is the decoder reusing the existing `NatsEvent` pointer.
- JetStream.Retry: `utils.Retry` is not part of this model. The model takes its behaviour to be "up to N calls, stop at the first nil". With `retryAttempts` below 1 the model makes no call; the real helper may call the handler once before it tests the count. Any stop-error escape hatch the helper may have is not modelled.
- JetStream.Callback: `retryAttempts` is a `nat`, so negative counts are not represented.
- JetStream.Callback: the handler sees an attempt number and the tagged payload, so its answer may change between attempts. Changes a handler makes to the payload object are not modelled.
- EventMessage.Message.AddSubject: the callback panics if a parser returns success but leaves a nil event. The model's payload is generic and does not capture the panic.
- Concurrency: broker dispatch and concurrent callbacks are the broker's concern. One callback invocation is sequential.
- `ErrConnectionLost`: it is defined outside the files modelled here, and its text is a stand-in.
- The timestamp field and the audit-log message type appear only in the tests, not in the code.
