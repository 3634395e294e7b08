/** Go `error` values as the package creates, wraps and stores them: the sentinels of
    errors.go, `errors.New`, `errors.Wrap` from pkg/errors, and the way
    `NatsEventMessage.wrapError` folds every new failure into the recorded one. */
module Errors {
  import opened Wrappers

  /** An error value. `New` is any error known only by its message (`errors.New`, or an
      error a codec or the broker returned); `Wrapped` is pkg/errors' wrapper around a
      non-nil cause. */
  datatype Err =
    | New(text: string)
    | Wrapped(cause: Err, msg: string)
    | BadUnmarshalResult
    | CastingPayloadToStruct
    | GiveUpProcessingMessagePayload
    | NilMessagePayload
    | ConnectionLost

  /** `err.Error()`. A wrapper prints its message, a colon and its cause. The text of
      `ErrConnectionLost` is not part of this model's sources; the string here is a stand-in. */
  function Text(e: Err): string
  {
    match e
    case New(t) => t
    case Wrapped(c, m) => m + ": " + Text(c)
    case BadUnmarshalResult => "ferstreamErr: bad unmarshal result"
    case CastingPayloadToStruct => "ferstreamErr: failed to cast payload to specified struct"
    case GiveUpProcessingMessagePayload => "ferstreamErr: give up processing message payload"
    case NilMessagePayload => "ferstreamErr: nil message payload given"
    case ConnectionLost => "connection lost"
  }

  /** `errors.Wrap(cause, msg)`: nil for a nil cause, otherwise a wrapper whose cause is kept. */
  function Wrap(cause: Option<Err>, msg: string): (r: Option<Err>)
    ensures r.None? <==> cause.None?
    ensures r.Some? ==> r.value.Wrapped? && r.value.cause == cause.value
    ensures r.Some? ==> Text(r.value) == msg + ": " + Text(cause.value)
  {
    if cause.None? then None else Some(Wrapped(cause.value, msg))
  }

  /** The innermost cause of an error: the first failure that was recorded. */
  function Root(e: Err): Err
  {
    if e.Wrapped? then Root(e.cause) else e
  }

  /** `c` is `e` itself or one of the causes `e` wraps. */
  predicate IsCause(c: Err, e: Err)
  {
    e == c || (e.Wrapped? && IsCause(c, e.cause))
  }

  /** `s` is a suffix of `t`. */
  predicate IsSuffix(s: string, t: string)
  {
    |s| <= |t| && t[|t| - |s|..] == s
  }

  /** The error that `wrapError(err)` leaves behind when `prior` was recorded before. */
  function Fold(prior: Option<Err>, err: Err): (r: Err)
    ensures prior.None? ==> r == err
    ensures prior.Some? ==> r != prior.value && IsCause(prior.value, r)
    ensures prior.Some? ==> Root(r) == Root(prior.value)
    ensures prior.Some? ==> IsSuffix(Text(prior.value), Text(r))
    ensures prior.Some? ==> Text(r) == Text(err) + ": " + Text(prior.value)
  {
    if prior.Some? then Wrapped(prior.value, Text(err)) else err
  }

  /** The recorded error after `wrapError` was called with each of `errs` in turn. */
  function FoldAll(prior: Option<Err>, errs: seq<Err>): (r: Option<Err>)
    ensures r.None? <==> prior.None? && errs == []
    decreases errs
  {
    if errs == [] then prior else FoldAll(Some(Fold(prior, errs[0])), errs[1..])
  }

  lemma {:induction false} IsCauseTransitive(a: Err, b: Err, c: Err)
    requires IsCause(a, b) && IsCause(b, c)
    ensures IsCause(a, c)
  {
    if c != b {
      IsCauseTransitive(a, b, c.cause);
    }
  }

  lemma {:induction false} CauseHasSameRoot(c: Err, e: Err)
    requires IsCause(c, e)
    ensures Root(c) == Root(e)
  {
    if e != c {
      CauseHasSameRoot(c, e.cause);
    }
  }

  /** The text of an error ends with the text of each of its causes, so one log line
      holds the whole failure path. */
  lemma {:induction false} CauseTextIsSuffix(c: Err, e: Err)
    requires IsCause(c, e)
    ensures IsSuffix(Text(c), Text(e))
  {
    if e != c {
      CauseTextIsSuffix(c, e.cause);
      var t := Text(e.cause);
      assert Text(e) == (e.msg + ": ") + t;
      assert Text(e)[|Text(e)| - |t|..] == t;
    }
  }

  /** Once an error is recorded, no number of further failures loses it: it stays a
      cause of the recorded error, which keeps its root and its text as a suffix. */
  lemma {:induction false} RecordedErrorIsNeverLost(prior: Err, errs: seq<Err>)
    ensures FoldAll(Some(prior), errs).Some?
    ensures IsCause(prior, FoldAll(Some(prior), errs).value)
    ensures Root(FoldAll(Some(prior), errs).value) == Root(prior)
    ensures IsSuffix(Text(prior), Text(FoldAll(Some(prior), errs).value))
    decreases errs
  {
    if errs != [] {
      var next := Fold(Some(prior), errs[0]);
      RecordedErrorIsNeverLost(next, errs[1..]);
      IsCauseTransitive(prior, next, FoldAll(Some(next), errs[1..]).value);
      CauseHasSameRoot(prior, FoldAll(Some(prior), errs).value);
    }
    CauseTextIsSuffix(prior, FoldAll(Some(prior), errs).value);
  }

  /** The texts of the failures `errs`, latest first, each followed by ": ". */
  function FailurePath(errs: seq<Err>): string
    decreases errs
  {
    if errs == [] then "" else FailurePath(errs[1..]) + Text(errs[0]) + ": "
  }

  /** The recorded error's text is the whole failure path: every later failure's text,
      latest first, and then the text of the error recorded before them. */
  lemma {:induction false} FoldAllText(prior: Err, errs: seq<Err>)
    ensures FoldAll(Some(prior), errs).Some?
    ensures Text(FoldAll(Some(prior), errs).value) == FailurePath(errs) + Text(prior)
    decreases errs
  {
    if errs != [] {
      var next := Fold(Some(prior), errs[0]);
      assert FoldAll(Some(prior), errs) == FoldAll(Some(next), errs[1..]);
      FoldAllText(next, errs[1..]);
      var a, b, c := FailurePath(errs[1..]), Text(errs[0]) + ": ", Text(prior);
      assert Text(next) == b + c;
      assert FailurePath(errs) == a + b;
      Associative(a, b, c);
    }
  }

  lemma Associative(a: string, b: string, c: string)
    ensures a + (b + c) == (a + b) + c
  {
  }

  /** Starting from no error, the first failure ever recorded is the root cause of the
      error that a chain of failures leaves ("fail fast, report first cause"). */
  lemma FirstFailureIsRoot(errs: seq<Err>)
    requires errs != []
    ensures FoldAll(None, errs).Some?
    ensures Root(FoldAll(None, errs).value) == Root(errs[0])
    ensures IsCause(errs[0], FoldAll(None, errs).value)
  {
    RecordedErrorIsNeverLost(errs[0], errs[1..]);
  }
}
