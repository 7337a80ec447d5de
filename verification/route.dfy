/**
 * `POST /api/generate` of `src/app/api/generate/route.ts`: validate the
 * requested count, then make one `generateRandomNumber` call per slot, one
 * slot after another, and stream one event per slot followed by `done`.
 *
 * The completion service is one script of attempt outcomes shared by all
 * slots, indexed by global request number: a slot starts reading it where
 * the previous slot stopped. `draws(i)` is the random sample slot `i` falls
 * back on if its answer holds no usable number.
 */
module Route {
  import opened Wrappers
  import opened NumberText
  import opened OpenRouter
  import opened Wire
  import opened Lines
  import Histogram

  /** A value raised by JavaScript code: an `Error` object, or anything else. */
  datatype Thrown = ErrorObject(message: string) | OtherValue(text: string)

  /** The request as the handler sees it. */
  datatype Request =
    | Unreadable(thrown: Thrown)   // `request.json()` or the destructuring raised
    | Body(count: Option<int>)     // `body.count`, when it is a number

  /** The response: a JSON error with a status, or an event stream. */
  datatype Response =
    | JsonError(status: int, error: string)
    | EventStream(events: seq<Message>)

  /** A response and the number of requests it sent upstream. */
  datatype Reply = Reply(response: Response, requests: nat)

  /** An exception escaping the slot loop, raised before slot `after + 1` starts. */
  datatype Fault = Fault(after: nat, thrown: Thrown)

  const InvalidCountMessage := "Invalid count. Must be 1, 5, or 30"
  const InternalErrorMessage := "Internal server error"

  /** The counts a run may ask for. */
  predicate ValidCount(count: int) {
    count == 1 || count == 5 || count == 30
  }

  /** The text of an error event: `error.message`, or `String(error)`. */
  function StreamErrorText(t: Thrown): string {
    match t
    case ErrorObject(m) => m
    case OtherValue(s) => s
  }

  /** The text of a 500 response: `error.message`, or a fixed message. */
  function RequestErrorText(t: Thrown): string {
    match t
    case ErrorObject(m) => m
    case OtherValue(_) => InternalErrorMessage
  }

  /** The completion script as seen by a slot that starts after `used` requests. */
  function Shift(upstream: nat -> Attempt, used: nat): nat -> Attempt {
    (k: nat) => upstream(used + k)
  }

  /** The event for slot `i` of `count`, given what its call produced. */
  function SlotEvent(o: Outcome, i: nat, count: nat): (m: Message)
    ensures o.Number? <==> m.NumberMessage?
    ensures m.NumberMessage? ==> m == NumberMessage(o.value, i, count)
    ensures m.ErrorMessage? ==> m.error == o.message
  {
    match o
    case Number(v) => NumberMessage(v, i, count)
    case Raised(e) => ErrorMessage(e)
  }

  /**
   * What each slot's `generateRandomNumber()` call gives: `call(i, used)` is
   * the call made by slot `i` when `used` requests have gone before it.
   */
  type SlotCall = (nat, nat) -> Call

  /** Every call sends at most three requests and any number it gives is in 1..100. */
  ghost predicate WellBehaved(call: SlotCall) {
    forall i: nat, used: nat ::
      call(i, used).requests <= MaxAttempts &&
      (call(i, used).outcome.Number? ==> Histogram.InRange(call(i, used).outcome.value))
  }

  /** The calls of the real handler: the shared script, read from where the previous slot stopped. */
  function Caller(key: Option<string>, upstream: nat -> Attempt, draws: nat -> Sample): (call: SlotCall)
    ensures WellBehaved(call)
  {
    var call: SlotCall := (i: nat, used: nat) => Fetch(key, Shift(upstream, used), draws(i));
    assert WellBehaved(call) by {
      forall i: nat, used: nat
        ensures call(i, used).requests <= MaxAttempts
        ensures call(i, used).outcome.Number? ==> Histogram.InRange(call(i, used).outcome.value)
      {
        var c := Fetch(key, Shift(upstream, used), draws(i));
        assert call(i, used) == c;
      }
    }
    call
  }

  /** Without a key every call fails at once with the missing-key message. */
  lemma CallerWithoutKey(key: Option<string>, upstream: nat -> Attempt, draws: nat -> Sample)
    requires KeyMissing(key)
    ensures forall i: nat, used: nat :: Caller(key, upstream, draws)(i, used) == Call(Raised(MissingKeyMessage), 0)
  {
    var call := Caller(key, upstream, draws);
    forall i: nat, used: nat
      ensures call(i, used) == Call(Raised(MissingKeyMessage), 0)
    {
      var c := Fetch(key, Shift(upstream, used), draws(i));
      assert call(i, used) == c;
    }
  }

  /**
   * Slots `i` to `last` of a run of `count`, after `used` upstream requests:
   * the events in order, and the request count once they are done.
   */
  function Slots(call: SlotCall, count: nat, last: nat, i: nat, used: nat): (r: (seq<Message>, nat))
    requires 1 <= i <= last + 1
    ensures |r.0| == last + 1 - i
    ensures used <= r.1
    decreases last + 1 - i
  {
    if i > last then ([], used)
    else
      var c := call(i, used);
      var rest := Slots(call, count, last, i + 1, used + c.requests);
      ([SlotEvent(c.outcome, i, count)] + rest.0, rest.1)
  }

  /** The first of slots `i` to `last` comes before the others, which start after its requests. */
  lemma SlotsFront(call: SlotCall, count: nat, last: nat, i: nat, used: nat)
    requires 1 <= i <= last
    ensures var c := call(i, used);
      var rest := Slots(call, count, last, i + 1, used + c.requests);
      Slots(call, count, last, i, used) == ([SlotEvent(c.outcome, i, count)] + rest.0, rest.1)
  {
  }

  /** The events of a run of `count`, with the fault if one occurs; and its request count. */
  function Stream(call: SlotCall, count: nat, fault: Option<Fault>): (r: (seq<Message>, nat))
    ensures fault.None? ==> |r.0| == count + 1 && r.0[count] == DoneMessage
    ensures fault.Some? ==>
      var ran := if fault.value.after < count then fault.value.after else count;
      |r.0| == ran + 1 && r.0[ran] == ErrorMessage(StreamErrorText(fault.value.thrown))
  {
    match fault
    case None =>
      var r := Slots(call, count, count, 1, 0);
      (r.0 + [DoneMessage], r.1)
    case Some(Fault(after, thrown)) =>
      var r := Slots(call, count, if after < count then after else count, 1, 0);
      (r.0 + [ErrorMessage(StreamErrorText(thrown))], r.1)
  }

  /**
   * The handler. An unreadable body is answered with status 500, and a
   * count other than 1, 5 or 30 with status 400, before anything is sent
   * upstream; any valid count is answered with an event stream.
   */
  function Post(request: Request, key: Option<string>, upstream: nat -> Attempt,
                draws: nat -> Sample, fault: Option<Fault>): (r: Reply)
    ensures r.response.JsonError? <==>
      request.Unreadable? || request.count.None? || !ValidCount(request.count.value)
    ensures r.response.JsonError? ==> r.requests == 0
    ensures request.Unreadable? ==> r.response == JsonError(500, RequestErrorText(request.thrown))
    ensures request.Body? && r.response.JsonError? ==> r.response == JsonError(400, InvalidCountMessage)
    ensures r.response.EventStream? ==>
      (r.response.events, r.requests) == Stream(Caller(key, upstream, draws), request.count.value, fault)
  {
    match request
    case Unreadable(t) => Reply(JsonError(500, RequestErrorText(t)), 0)
    case Body(count) =>
      if count.None? || !ValidCount(count.value) then Reply(JsonError(400, InvalidCountMessage), 0)
      else
        var s := Stream(Caller(key, upstream, draws), count.value, fault);
        Reply(EventStream(s.0), s.1)
  }

  // ---------------------------------------------------------------------
  // Properties

  /** An event a slot may produce in a run of `count`: a number in range with its position, or an error. */
  predicate SlotShaped(m: Message, i: nat, count: nat) {
    match m
    case NumberMessage(v, p, t) => Histogram.InRange(v) && p == i && t == count
    case ErrorMessage(_) => true
    case DoneMessage => false
  }

  /**
   * Each slot contributes one event in position order: slot `i + j` is at
   * index `j`; no slot event is `done`; each slot sends at most three
   * requests.
   */
  lemma {:induction false} SlotsShape(call: SlotCall, count: nat, last: nat, i: nat, used: nat)
    requires WellBehaved(call) && 1 <= i <= last + 1
    ensures var r := Slots(call, count, last, i, used);
      forall j :: 0 <= j < |r.0| ==> SlotShaped(r.0[j], i + j, count)
    ensures Slots(call, count, last, i, used).1 <= used + MaxAttempts * (last + 1 - i)
    decreases last + 1 - i
  {
    if i <= last {
      SlotsShape(call, count, last, i + 1, used + call(i, used).requests);
    }
  }

  /** When every call fails at once with the same message, every slot is that error and nothing is sent. */
  lemma {:induction false} SlotsAllRaised(call: SlotCall, message: string, count: nat, last: nat, i: nat, used: nat)
    requires forall i: nat, used: nat :: call(i, used) == Call(Raised(message), 0)
    requires 1 <= i <= last + 1
    ensures var r := Slots(call, count, last, i, used);
      r.1 == used && forall j :: 0 <= j < |r.0| ==> r.0[j] == ErrorMessage(message)
    decreases last + 1 - i
  {
    if i <= last {
      SlotsAllRaised(call, message, count, last, i + 1, used);
    }
  }

  /**
   * Without a fault, a run streams exactly `count` slot events, the `k`-th
   * of them with progress `k + 1`, and then a single `done` as the last
   * event; at most three requests are sent per slot.
   */
  lemma StreamComplete(count: nat, key: Option<string>, upstream: nat -> Attempt, draws: nat -> Sample)
    ensures var r := Stream(Caller(key, upstream, draws), count, None);
      |r.0| == count + 1 &&
      (forall k :: 0 <= k < count ==> SlotShaped(r.0[k], k + 1, count)) &&
      r.0[count] == DoneMessage &&
      r.1 <= MaxAttempts * count
  {
    SlotsShape(Caller(key, upstream, draws), count, count, 1, 0);
  }

  /**
   * With a fault, the stream ends with an error event after the slots that
   * ran, and no `done` is ever sent.
   */
  lemma StreamFault(count: nat, key: Option<string>, upstream: nat -> Attempt, draws: nat -> Sample, f: Fault)
    ensures var r := Stream(Caller(key, upstream, draws), count, Some(f));
      var ran := if f.after < count then f.after else count;
      |r.0| == ran + 1 &&
      r.0[ran] == ErrorMessage(StreamErrorText(f.thrown)) &&
      forall k :: 0 <= k < |r.0| ==> !r.0[k].DoneMessage?
  {
    var ran := if f.after < count then f.after else count;
    SlotsShape(Caller(key, upstream, draws), count, ran, 1, 0);
  }

  /** Without a key, a run streams one missing-key error per slot and `done`, sending nothing. */
  lemma StreamWithoutKey(count: nat, key: Option<string>, upstream: nat -> Attempt, draws: nat -> Sample)
    requires KeyMissing(key)
    ensures var r := Stream(Caller(key, upstream, draws), count, None);
      r.1 == 0 &&
      r.0 == seq(count, _ => ErrorMessage(MissingKeyMessage)) + [DoneMessage]
  {
    CallerWithoutKey(key, upstream, draws);
    SlotsAllRaised(Caller(key, upstream, draws), MissingKeyMessage, count, count, 1, 0);
  }

  /**
   * The run after slots 1..i-1: the events so far, followed by the events
   * of the slots still to run, are the run's slot events, and those slots
   * end at the run's request count.
   */
  predicate Resumes(call: SlotCall, count: nat, i: nat, done: seq<Message>, used: nat) {
    1 <= i <= count + 1 &&
    var whole, rest := Slots(call, count, count, 1, 0), Slots(call, count, count, i, used);
    whole.0 == done + rest.0 && whole.1 == rest.1
  }

  /** One turn of the per-slot loop keeps the run resumable. */
  lemma SlotsStep(call: SlotCall, count: nat, i: nat, done: seq<Message>, used: nat)
    requires 1 <= i <= count && Resumes(call, count, i, done, used)
    ensures var c := call(i, used);
      Resumes(call, count, i + 1, done + [SlotEvent(c.outcome, i, count)], used + c.requests)
  {
    var c := call(i, used);
    SlotsFront(call, count, count, i, used);
    AppendAssoc(done, [SlotEvent(c.outcome, i, count)], Slots(call, count, count, i + 1, used + c.requests).0);
  }

  /** The loop starts with nothing done and ends with every slot done. */
  lemma ResumesEnds(call: SlotCall, count: nat, done: seq<Message>, used: nat)
    ensures Resumes(call, count, 1, [], 0)
    ensures Resumes(call, count, count + 1, done, used) ==>
      (done, used) == Slots(call, count, count, 1, 0)
  {
    assert [] + Slots(call, count, count, 1, 0).0 == Slots(call, count, count, 1, 0).0;
    assert done + [] == done;
  }

  /**
   * The per-slot loop as the source writes it: slot `i` runs after slots
   * 1..i-1 have used their requests, and appends its event.
   */
  method StreamLoop(call: SlotCall, count: nat) returns (events: seq<Message>, requests: nat)
    ensures events == Stream(call, count, None).0
    ensures requests == Stream(call, count, None).1
  {
    events := [];
    requests := 0;
    ResumesEnds(call, count, events, requests);
    var i: nat := 1;
    while i <= count
      invariant Resumes(call, count, i, events, requests)
      decreases count + 1 - i
    {
      events, requests := RunSlot(call, count, i, events, requests);
      i := i + 1;
    }
    StreamAfterSlots(call, count, events, requests);
    events := events + [DoneMessage];
  }

  /** One turn of the per-slot loop: slot `i` is called with the requests used so far and its event appended. */
  method RunSlot(call: SlotCall, count: nat, i: nat, done: seq<Message>, used: nat)
    returns (done': seq<Message>, used': nat)
    requires i <= count && Resumes(call, count, i, done, used)
    ensures done' == done + [SlotEvent(call(i, used).outcome, i, count)]
    ensures used' == used + call(i, used).requests
    ensures Resumes(call, count, i + 1, done', used')
  {
    var c := call(i, used);
    SlotsStep(call, count, i, done, used);
    done' := done + [SlotEvent(c.outcome, i, count)];
    used' := used + c.requests;
  }

  /** Once every slot has run, the run's stream is the slots' events and then `done`. */
  lemma StreamAfterSlots(call: SlotCall, count: nat, done: seq<Message>, used: nat)
    requires Resumes(call, count, count + 1, done, used)
    ensures Stream(call, count, None) == (done + [DoneMessage], used)
  {
    ResumesEnds(call, count, done, used);
  }

}
