/**
 * `handleGenerate` of `src/components/Dashboard.tsx`: reset the run state,
 * post the request, read the event stream chunk by chunk, and fold each
 * `data:` line into the state. React's state setters are applied in the
 * order they are called, so the state is a plain value threaded through.
 */
module Dashboard {
  import opened Wrappers
  import opened Decimal
  import opened Lines
  import opened Wire
  import Histogram

  /** `{ current, total }` of the progress bar. */
  datatype Progress = Progress(current: int, total: int)

  /** The component state that a run changes. */
  datatype State = State(
    histogram: Histogram.Histogram,
    rawNumbers: seq<int>,
    progress: Progress,
    isGenerating: bool,
    error: Option<string>)

  /** What a failed `fetch`, a failed read or an explicit `throw` raised. */
  datatype Failure =
    | AbortError                 // an `Error` named "AbortError": the request was cancelled
    | ErrorThrown(message: string)  // any other `Error`
    | NonError                   // a thrown value that is not an `Error`

  /** How reading the body ended: the reader reported `done`, or a read raised. */
  datatype Ending = Finished | Interrupted(failure: Failure)

  /** The response body as it arrives: its decoded chunks, and how reading ended. */
  datatype BodyStream = BodyStream(chunks: seq<string>, ending: Ending)

  /** What `fetch` gave: a rejection, or a response with its status and body. */
  datatype FetchResult =
    | Rejected(failure: Failure)
    | Responded(status: int, body: Option<BodyStream>)

  const NoBodyMessage := "No response body"
  const UnknownErrorMessage := "Unknown error occurred"

  function HttpErrorMessage(status: int): string {
    "HTTP error! status: " + IntStr(status)
  }

  /** `response.ok`: a status in 200..299. */
  predicate Ok(status: int) {
    200 <= status <= 299
  }

  /** The state right after the button is pressed for a run of `count`. */
  function Start(count: int): (st: State)
    ensures st.isGenerating && st.error.None? && st.rawNumbers == []
    ensures st.histogram == Histogram.Tally([])
    ensures st.progress == Progress(0, count)
  {
    State(Histogram.Initial(), [], Progress(0, count), true, None)
  }

  /**
   * One parsed message. A number is counted, appended and shown as the
   * progress; `done` ends the run; an error is shown and also ends the run.
   */
  function Apply(st: State, m: Message): (r: State)
    ensures m.NumberMessage? ==>
      r == st.(histogram := Histogram.Increment(st.histogram, m.value),
               rawNumbers := st.rawNumbers + [m.value],
               progress := Progress(m.progress, m.total))
    ensures m.DoneMessage? ==> r == st.(isGenerating := false)
    ensures m.ErrorMessage? ==> r == st.(error := Some(m.error), isGenerating := false)
  {
    match m
    case NumberMessage(v, p, t) =>
      st.(histogram := Histogram.Increment(st.histogram, v),
          rawNumbers := st.rawNumbers + [v],
          progress := Progress(p, t))
    case DoneMessage => st.(isGenerating := false)
    case ErrorMessage(e) => st.(error := Some(e), isGenerating := false)
  }

  /**
   * One line of a chunk: a `data: ` line whose rest parses is applied; a line
   * that fails to parse, and any other line, leaves the state as it is.
   */
  function ApplyLine(st: State, line: string): (r: State)
    ensures !StartsWith(line, DataPrefix) ==> r == st
    ensures StartsWith(line, DataPrefix) && Decode(line[|DataPrefix|..]).None? ==> r == st
    ensures StartsWith(line, DataPrefix) && Decode(line[|DataPrefix|..]).Some? ==>
      r == Apply(st, Decode(line[|DataPrefix|..]).value)
    ensures Reaches(st, r, 1)
  {
    if StartsWith(line, DataPrefix) then
      match Decode(line[|DataPrefix|..])
      case Some(m) => Apply(st, m)
      case None => st
    else st
  }

  /**
   * Reading lines from `st` can only have led to `r` when `r` extends
   * `st`'s numbers by at most `n` more, and a run that has ended stays ended.
   */
  predicate Reaches(st: State, r: State, n: nat) {
    st.rawNumbers <= r.rawNumbers && |r.rawNumbers| <= |st.rawNumbers| + n &&
    (!st.isGenerating ==> !r.isGenerating)
  }

  /** The lines in order. */
  function ApplyLines(st: State, lines: seq<string>): (r: State)
    ensures Reaches(st, r, |lines|)
    decreases |lines|
  {
    if |lines| == 0 then st else ApplyLines(ApplyLine(st, lines[0]), lines[1..])
  }

  /** The messages in order. */
  function ApplyAll(st: State, ms: seq<Message>): State
    decreases |ms|
  {
    if |ms| == 0 then st else ApplyAll(Apply(st, ms[0]), ms[1..])
  }

  /** The read loop as written: each chunk is split on "\n" by itself and its lines applied. */
  function ApplyChunks(st: State, chunks: seq<string>): (r: State)
    ensures Reaches(st, r, |ChunkLines(chunks)|)
    decreases |chunks|
  {
    if |chunks| == 0 then st else ApplyChunks(ApplyLines(st, Split(chunks[0])), chunks[1..])
  }

  /** The read loop with a carry-over buffer: only complete lines are applied. */
  function ApplyChunksBuffered(st: State, chunks: seq<string>): (r: State)
    ensures r == ApplyLines(st, CompleteLines(Concat(chunks)))
    ensures Reaches(st, r, |CompleteLines(Concat(chunks))|)
  {
    FeedIsChunkingIndependent("", chunks);
    assert "" + Concat(chunks) == Concat(chunks);
    ApplyLines(st, Feed("", chunks).1)
  }

  /** The `catch` block: an abort only stops the run; any other failure is also shown. */
  function Fail(st: State, f: Failure): (r: State)
    ensures !r.isGenerating
    ensures f.AbortError? ==> r.error == st.error
    ensures f.ErrorThrown? ==> r.error == Some(f.message)
    ensures f.NonError? ==> r.error == Some(UnknownErrorMessage)
    ensures r.histogram == st.histogram && r.rawNumbers == st.rawNumbers && r.progress == st.progress
  {
    match f
    case AbortError => st.(isGenerating := false)
    case ErrorThrown(m) => st.(error := Some(m), isGenerating := false)
    case NonError => st.(error := Some(UnknownErrorMessage), isGenerating := false)
  }

  /** `handleGenerate` with the given line reader (as written, or buffered). */
  function Handle(count: int, reply: FetchResult, buffered: bool): (st: State)
    ensures !st.isGenerating || (reply.Responded? && Ok(reply.status) && reply.body.Some? && reply.body.value.ending.Finished?)
    ensures reply.Rejected? ==> st == Fail(Start(count), reply.failure)
    ensures reply.Responded? && !Ok(reply.status) ==>
      st.error == Some(HttpErrorMessage(reply.status)) && st.rawNumbers == []
    ensures reply.Responded? && Ok(reply.status) && reply.body.None? ==>
      st.error == Some(NoBodyMessage) && st.rawNumbers == []
    ensures reply.Responded? && Ok(reply.status) && reply.body.Some? && reply.body.value.ending.Finished? ==>
      st == if buffered then ApplyChunksBuffered(Start(count), reply.body.value.chunks)
            else ApplyChunks(Start(count), reply.body.value.chunks)
    ensures reply.Responded? && Ok(reply.status) && reply.body.Some? && reply.body.value.ending.Interrupted? ==>
      st == Fail(if buffered then ApplyChunksBuffered(Start(count), reply.body.value.chunks)
                 else ApplyChunks(Start(count), reply.body.value.chunks),
                 reply.body.value.ending.failure)
  {
    var st := Start(count);
    match reply
    case Rejected(f) => Fail(st, f)
    case Responded(status, body) =>
      if !Ok(status) then Fail(st, ErrorThrown(HttpErrorMessage(status)))
      else if body.None? then Fail(st, ErrorThrown(NoBodyMessage))
      else
        var read := if buffered then ApplyChunksBuffered(st, body.value.chunks) else ApplyChunks(st, body.value.chunks);
        match body.value.ending
        case Finished => read
        case Interrupted(f) => Fail(read, f)
  }

  /** `handleGenerate` as the source writes it. */
  function HandleGenerate(count: int, reply: FetchResult): (st: State)
    ensures reply.Rejected? ==> !st.isGenerating && st.rawNumbers == []
    ensures reply.Responded? && !Ok(reply.status) ==>
      !st.isGenerating && st.error == Some(HttpErrorMessage(reply.status)) && st.rawNumbers == []
    ensures reply.Responded? && Ok(reply.status) && reply.body.None? ==>
      !st.isGenerating && st.error == Some(NoBodyMessage) && st.rawNumbers == []
    ensures reply.Responded? && Ok(reply.status) && reply.body.Some? && reply.body.value.ending.Finished? ==>
      st == ApplyChunks(Start(count), reply.body.value.chunks)
    ensures reply.Responded? && Ok(reply.status) && reply.body.Some? && reply.body.value.ending.Interrupted? ==>
      st == Fail(ApplyChunks(Start(count), reply.body.value.chunks), reply.body.value.ending.failure)
  {
    Handle(count, reply, false)
  }

  /** `handleGenerate` with lines reassembled across chunks. */
  function HandleGenerateBuffered(count: int, reply: FetchResult): (st: State)
    ensures reply.Rejected? ==> !st.isGenerating && st.rawNumbers == []
    ensures reply.Responded? && !Ok(reply.status) ==>
      !st.isGenerating && st.error == Some(HttpErrorMessage(reply.status)) && st.rawNumbers == []
    ensures reply.Responded? && Ok(reply.status) && reply.body.None? ==>
      !st.isGenerating && st.error == Some(NoBodyMessage) && st.rawNumbers == []
    ensures reply.Responded? && Ok(reply.status) && reply.body.Some? && reply.body.value.ending.Finished? ==>
      st == ApplyChunksBuffered(Start(count), reply.body.value.chunks)
    ensures reply.Responded? && Ok(reply.status) && reply.body.Some? && reply.body.value.ending.Interrupted? ==>
      st == Fail(ApplyChunksBuffered(Start(count), reply.body.value.chunks), reply.body.value.ending.failure)
  {
    Handle(count, reply, true)
  }

  // ---------------------------------------------------------------------
  // Folding messages

  /** The value a message carries, if it is a number message. */
  function NumberOf(m: Message): seq<int> {
    if m.NumberMessage? then [m.value] else []
  }

  /** The values of the number messages, in order. */
  function Numbers(ms: seq<Message>): seq<int> {
    if |ms| == 0 then [] else NumberOf(ms[0]) + Numbers(ms[1..])
  }

  /** The table always counts exactly the numbers received. */
  predicate Consistent(st: State) {
    st.histogram == Histogram.IncrementAll(Histogram.Initial(), st.rawNumbers)
  }

  lemma {:induction false} NumbersAppend(ms: seq<Message>, m: Message)
    ensures Numbers(ms + [m]) == Numbers(ms) + NumberOf(m)
    decreases |ms|
  {
    if |ms| == 0 {
      assert ms + [m] == [m];
      assert [m][1..] == [];
      assert NumberOf(m) + [] == NumberOf(m);
    } else {
      assert (ms + [m])[0] == ms[0];
      assert (ms + [m])[1..] == ms[1..] + [m];
      NumbersAppend(ms[1..], m);
      assert NumberOf(ms[0]) + (Numbers(ms[1..]) + NumberOf(m)) == (NumberOf(ms[0]) + Numbers(ms[1..])) + NumberOf(m);
    }
  }

  /** A message ends the run exactly when it is `done` or an error. */
  predicate EndsRun(m: Message) {
    m.DoneMessage? || m.ErrorMessage?
  }

  /** Whether some message ends the run. */
  predicate Ends(ms: seq<Message>) {
    exists k :: 0 <= k < |ms| && EndsRun(ms[k])
  }

  lemma EndsCons(ms: seq<Message>)
    requires |ms| > 0
    ensures Ends(ms) <==> EndsRun(ms[0]) || Ends(ms[1..])
  {
    if Ends(ms[1..]) {
      var k :| 0 <= k < |ms[1..]| && EndsRun(ms[1..][k]);
      assert ms[k + 1] == ms[1..][k];
    }
    if Ends(ms) && !EndsRun(ms[0]) {
      var k :| 0 <= k < |ms| && EndsRun(ms[k]);
      assert ms[1..][k - 1] == ms[k];
    }
  }

  /** Applying messages appends exactly their numbers to the raw list, in order. */
  lemma {:induction false} ApplyAllNumbers(st: State, ms: seq<Message>)
    ensures ApplyAll(st, ms).rawNumbers == st.rawNumbers + Numbers(ms)
    decreases |ms|
  {
    if |ms| == 0 {
      assert st.rawNumbers + [] == st.rawNumbers;
    } else {
      var m, rest := ms[0], ms[1..];
      var st' := Apply(st, m);
      assert ApplyAll(st, ms) == ApplyAll(st', rest);
      assert Numbers(ms) == NumberOf(m) + Numbers(rest);
      ApplyRaw(st, m);
      ApplyAllNumbers(st', rest);
      AppendAssoc(st.rawNumbers, NumberOf(m), Numbers(rest));
    }
  }

  /** Applying messages keeps the table equal to the count of the raw list. */
  lemma {:induction false} ApplyAllConsistent(st: State, ms: seq<Message>)
    requires Consistent(st)
    ensures Consistent(ApplyAll(st, ms))
    decreases |ms|
  {
    if |ms| > 0 {
      ApplyConsistent(st, ms[0]);
      ApplyAllConsistent(Apply(st, ms[0]), ms[1..]);
    }
  }

  /** One message appends its number, if any. */
  lemma ApplyRaw(st: State, m: Message)
    ensures Apply(st, m).rawNumbers == st.rawNumbers + NumberOf(m)
  {
    if !m.NumberMessage? {
      assert st.rawNumbers + [] == st.rawNumbers;
    }
  }

  /** One message keeps the table consistent with the list. */
  lemma ApplyConsistent(st: State, m: Message)
    requires Consistent(st)
    ensures Consistent(Apply(st, m))
  {
    if m.NumberMessage? {
      Histogram.IncrementAllAppend(Histogram.Initial(), st.rawNumbers, m.value);
    }
  }

  /** The run stops being marked as generating exactly when some message ends it. */
  lemma {:induction false} ApplyAllEnds(st: State, ms: seq<Message>)
    ensures ApplyAll(st, ms).isGenerating == (st.isGenerating && !Ends(ms))
    decreases |ms|
  {
    if |ms| > 0 {
      EndsCons(ms);
      ApplyAllEnds(Apply(st, ms[0]), ms[1..]);
    }
  }

  /** After the messages, the progress shows the last number message's position, if there is one. */
  lemma {:induction false} ApplyAllProgress(st: State, ms: seq<Message>, k: nat)
    requires k < |ms| && ms[k].NumberMessage?
    requires forall j :: k < j < |ms| ==> !ms[j].NumberMessage?
    ensures ApplyAll(st, ms).progress == Progress(ms[k].progress, ms[k].total)
    decreases |ms|
  {
    if k == 0 {
      ApplyAllKeepsProgress(Apply(st, ms[0]), ms[1..]);
    } else {
      ApplyAllProgress(Apply(st, ms[0]), ms[1..], k - 1);
    }
  }

  /** Messages other than numbers leave the progress alone. */
  lemma {:induction false} ApplyAllKeepsProgress(st: State, ms: seq<Message>)
    requires forall j :: 0 <= j < |ms| ==> !ms[j].NumberMessage?
    ensures ApplyAll(st, ms).progress == st.progress
    decreases |ms|
  {
    if |ms| > 0 {
      ApplyAllKeepsProgress(Apply(st, ms[0]), ms[1..]);
    }
  }

  // ---------------------------------------------------------------------
  // From lines to messages

  lemma {:induction false} ApplyLinesAppend(st: State, a: seq<string>, b: seq<string>)
    ensures ApplyLines(st, a + b) == ApplyLines(ApplyLines(st, a), b)
    decreases |a|
  {
    if |a| == 0 {
      assert a + b == b;
    } else {
      assert (a + b)[0] == a[0];
      assert (a + b)[1..] == a[1..] + b;
      ApplyLinesAppend(ApplyLine(st, a[0]), a[1..], b);
    }
  }

  /** Empty lines change nothing. */
  lemma {:induction false} ApplyLinesNonEmpty(st: State, lines: seq<string>)
    ensures ApplyLines(st, NonEmpty(lines)) == ApplyLines(st, lines)
    decreases |lines|
  {
    if |lines| > 0 {
      ApplyLinesNonEmpty(ApplyLine(st, lines[0]), lines[1..]);
      if lines[0] != "" {
        var r := NonEmpty(lines[1..]);
        assert NonEmpty(lines) == [lines[0]] + r;
        assert ([lines[0]] + r)[1..] == r;
      }
    }
  }

  /** The data line of a message applies that message. */
  lemma ApplyDataLine(st: State, m: Message)
    ensures ApplyLine(st, DataLine(m)) == Apply(st, m)
  {
    var line := DataLine(m);
    assert line[..|DataPrefix|] == DataPrefix;
    assert line[|DataPrefix|..] == Encode(m);
    DecodeEncode(m);
  }

  /** An empty line changes nothing. */
  lemma ApplyEmptyLine(st: State)
    ensures ApplyLine(st, "") == st
  {
    assert !StartsWith("", DataPrefix);
  }

  /** Two lines in front of more lines. */
  lemma ApplyTwoLines(st: State, a: string, b: string, rest: seq<string>)
    ensures ApplyLines(st, [a, b] + rest) == ApplyLines(ApplyLine(ApplyLine(st, a), b), rest)
  {
    var ls := [a, b] + rest;
    assert ls[0] == a && ls[1..] == [b] + rest;
    assert ([b] + rest)[0] == b && ([b] + rest)[1..] == rest;
  }

  /** The lines of a sequence of frames apply their messages in order. */
  lemma {:induction false} ApplyFrameLines(st: State, ms: seq<Message>)
    ensures ApplyLines(st, FrameLines(ms)) == ApplyAll(st, ms)
    decreases |ms|
  {
    if |ms| > 0 {
      var st' := Apply(st, ms[0]);
      assert FrameLines(ms) == [DataLine(ms[0]), ""] + FrameLines(ms[1..]);
      ApplyTwoLines(st, DataLine(ms[0]), "", FrameLines(ms[1..]));
      ApplyDataLine(st, ms[0]);
      ApplyEmptyLine(st');
      ApplyFrameLines(st', ms[1..]);
      assert ApplyAll(st, ms) == ApplyAll(st', ms[1..]);
    }
  }

  /** The as-written loop is the line fold over the per-chunk splits. */
  lemma {:induction false} ApplyChunksIsLines(st: State, chunks: seq<string>)
    ensures ApplyChunks(st, chunks) == ApplyLines(st, ChunkLines(chunks))
    decreases |chunks|
  {
    if |chunks| > 0 {
      ApplyLinesAppend(st, Split(chunks[0]), ChunkLines(chunks[1..]));
      ApplyChunksIsLines(ApplyLines(st, Split(chunks[0])), chunks[1..]);
    }
  }

  /**
   * The buffered reader applies the messages of a stream of frames however
   * the stream is cut into chunks.
   */
  lemma BufferedReadsFrames(st: State, chunks: seq<string>, ms: seq<Message>)
    requires Concat(chunks) == Frames(ms)
    ensures ApplyChunksBuffered(st, chunks) == ApplyAll(st, ms)
  {
    FeedIsChunkingIndependent("", chunks);
    assert "" + Concat(chunks) == Frames(ms);
    SplitFrames(ms);
    assert Init(FrameLines(ms) + [""]) == FrameLines(ms);
    ApplyFrameLines(st, ms);
  }

  /** When every chunk ends with a newline, the as-written reader and the buffered one agree. */
  lemma WholeLineChunksAgree(st: State, chunks: seq<string>)
    requires forall i :: 0 <= i < |chunks| ==> |chunks[i]| > 0 && Last(chunks[i]) == '\n'
    ensures ApplyChunks(st, chunks) == ApplyChunksBuffered(st, chunks)
  {
    FeedAgreesOnWholeLines(chunks);
    ApplyChunksIsLines(st, chunks);
    ApplyLinesNonEmpty(st, ChunkLines(chunks));
    ApplyLinesNonEmpty(st, Feed("", chunks).1);
  }
}
