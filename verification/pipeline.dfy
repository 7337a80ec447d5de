/**
 * The server and the client together: the event stream written by
 * `POST /api/generate`, cut into chunks by the network however it likes,
 * read by `handleGenerate`. With lines reassembled across chunks the client
 * ends in the state the server's events describe; splitting each chunk on
 * its own, as the client does, loses any frame cut in two.
 */
module Pipeline {
  import opened Wrappers
  import opened Lines
  import opened Wire
  import opened NumberText
  import opened OpenRouter
  import opened Route
  import opened Dashboard
  import Histogram
  import Stats

  /** The numbers of slot events are in range, and there is at most one per slot. */
  lemma {:induction false} NumbersOfSlots(ms: seq<Message>, from: nat, count: nat)
    requires forall k :: 0 <= k < |ms| ==> SlotShaped(ms[k], from + k, count)
    ensures |Numbers(ms)| <= |ms|
    ensures forall i :: 0 <= i < |Numbers(ms)| ==> Histogram.InRange(Numbers(ms)[i])
    decreases |ms|
  {
    if |ms| > 0 {
      NumbersOfSlots(ms[1..], from + 1, count);
      assert SlotShaped(ms[0], from, count);
      var rest := Numbers(ms[1..]);
      assert Numbers(ms) == NumberOf(ms[0]) + rest;
      assert forall i :: 0 <= i < |rest| ==> Numbers(ms)[|NumberOf(ms[0])| + i] == rest[i];
    }
  }

  /**
   * The client state at the end of a run of `count` slots whose events were
   * `ms`: the run has ended, the raw list holds the values of the number
   * events in order, each in 1..100 and at most `count` of them, and the
   * table counts exactly that list.
   */
  predicate RanTo(st: State, count: nat, ms: seq<Message>) {
    !st.isGenerating &&
    st.rawNumbers == Numbers(ms) &&
    st.histogram == Histogram.Tally(st.rawNumbers) &&
    |st.rawNumbers| <= count &&
    forall i :: 0 <= i < |st.rawNumbers| ==> Histogram.InRange(st.rawNumbers[i])
  }

  /**
   * Reading the events of a complete run from the start: the run ends, the
   * raw list holds the values of the number events in order (each in
   * 1..100, at most one per slot), and the table counts exactly that list.
   */
  lemma ReadRun(count: nat, ms: seq<Message>)
    requires |ms| == count + 1 && ms[count] == DoneMessage
    requires forall k :: 0 <= k < count ==> SlotShaped(ms[k], k + 1, count)
    ensures RanTo(ApplyAll(Start(count), ms), count, ms)
  {
    var st0 := Start(count);
    ApplyAllNumbers(st0, ms);
    ApplyAllConsistent(st0, ms);
    ApplyAllEnds(st0, ms);
    assert EndsRun(ms[count]);
    RunNumbers(count, ms);
  }

  /** The numbers of a complete run's events: at most one per slot, each in 1..100. */
  lemma RunNumbers(count: nat, ms: seq<Message>)
    requires |ms| == count + 1 && ms[count] == DoneMessage
    requires forall k :: 0 <= k < count ==> SlotShaped(ms[k], k + 1, count)
    ensures |Numbers(ms)| <= count
    ensures forall i :: 0 <= i < |Numbers(ms)| ==> Histogram.InRange(Numbers(ms)[i])
  {
    var slots := ms[..count];
    assert ms == slots + [DoneMessage];
    NumbersAppend(slots, DoneMessage);
    assert Numbers(ms) == Numbers(slots) + [];
    NumbersOfSlots(slots, 1, count);
  }

  /**
   * A complete run read with lines reassembled across chunks, however the
   * body was cut: the client ends in the state the run's events describe.
   */
  lemma BufferedClientSeesRun(count: int, key: Option<string>, upstream: nat -> Attempt,
                              draws: nat -> Sample, chunks: seq<string>)
    requires ValidCount(count)
    requires Concat(chunks) == Frames(Post(Body(Some(count)), key, upstream, draws, None).response.events)
    ensures RanTo(HandleGenerateBuffered(count, Responded(200, Some(BodyStream(chunks, Finished)))),
                  count, Post(Body(Some(count)), key, upstream, draws, None).response.events)
  {
    var events := Post(Body(Some(count)), key, upstream, draws, None).response.events;
    assert events == Stream(Caller(key, upstream, draws), count, None).0;
    StreamComplete(count, key, upstream, draws);
    BufferedClientReadsRun(count, chunks, events);
  }

  /** The buffered client reading a complete run's events, however the body was cut. */
  lemma BufferedClientReadsRun(count: nat, chunks: seq<string>, ms: seq<Message>)
    requires |ms| == count + 1 && ms[count] == DoneMessage
    requires forall k :: 0 <= k < count ==> SlotShaped(ms[k], k + 1, count)
    requires Concat(chunks) == Frames(ms)
    ensures RanTo(HandleGenerateBuffered(count, Responded(200, Some(BodyStream(chunks, Finished)))), count, ms)
  {
    var st0 := Start(count);
    var st := HandleGenerateBuffered(count, Responded(200, Some(BodyStream(chunks, Finished))));
    assert st == ApplyAll(st0, ms) by {
      assert st == ApplyChunksBuffered(st0, chunks);
      BufferedReadsFrames(st0, chunks, ms);
    }
    ReadRun(count, ms);
  }

  /**
   * The same run read as the source does, when every chunk ends at a line
   * end: the state is the one the buffered reader reaches.
   */
  lemma ClientOnWholeLines(count: int, reply: FetchResult)
    requires reply.Responded? && reply.body.Some?
    requires var cs := reply.body.value.chunks;
      forall i :: 0 <= i < |cs| ==> |cs[i]| > 0 && Last(cs[i]) == '\n'
    ensures HandleGenerate(count, reply) == HandleGenerateBuffered(count, reply)
  {
    WholeLineChunksAgree(Start(count), reply.body.value.chunks);
  }

  /**
   * For a complete run, the panel's distinct-value count is the number of
   * distinct values received.
   */
  lemma BufferedClientUnique(count: int, key: Option<string>, upstream: nat -> Attempt,
                             draws: nat -> Sample, chunks: seq<string>)
    requires ValidCount(count)
    requires Concat(chunks) == Frames(Post(Body(Some(count)), key, upstream, draws, None).response.events)
    ensures var st := HandleGenerateBuffered(count, Responded(200, Some(BodyStream(chunks, Finished))));
      |st.rawNumbers| > 0 ==>
        Stats.Summarize(st.rawNumbers, st.histogram).value.uniqueNumbers ==
        |set v | v in st.rawNumbers && Histogram.InRange(v)|
  {
    BufferedClientSeesRun(count, key, upstream, draws, chunks);
    var st := HandleGenerateBuffered(count, Responded(200, Some(BodyStream(chunks, Finished))));
    Stats.UniqueIsDistinctValues(st.rawNumbers);
  }

  // ---------------------------------------------------------------------
  // A frame cut in two

  /** The number event of a one-slot run whose first answer is "42". */
  const FortyTwo := NumberMessage(42, 1, 1)

  /** The start of the `done` frame's data line, up to where the cut falls. */
  const CutHead := "data: {\"typ"

  /** The rest of the `done` frame. */
  const CutTail := "e\":\"done\"}\n\n"

  /** A one-slot run whose first answer is " 42\n" streams the number 42 and `done`. */
  lemma OneSlotRun(key: Option<string>, upstream: nat -> Attempt, draws: nat -> Sample)
    requires !KeyMissing(key) && upstream(0) == Completion(Some(" 42\n"))
    ensures Post(Body(Some(1)), key, upstream, draws, None) == Reply(EventStream([FortyTwo, DoneMessage]), 1)
  {
    var u := Shift(upstream, 0);
    assert u(0) == upstream(0);
    FetchFirstAnswer(key, u, draws(1));
    var call := Caller(key, upstream, draws);
    assert call(1, 0) == Call(Number(42), 1);
    OneSlot(call, Number(42), 1);
    assert ValidCount(1);
  }

  /** A run of one slot streams that slot's event and `done`. */
  lemma OneSlot(call: SlotCall, o: Outcome, n: nat)
    requires call(1, 0) == Call(o, n)
    ensures Stream(call, 1, None) == ([SlotEvent(o, 1, 1), DoneMessage], n)
  {
    assert Slots(call, 1, 1, 2, n) == ([], n);
    var r := Slots(call, 1, 1, 1, 0);
    assert r == ([SlotEvent(o, 1, 1)] + [], n);
    assert r.0 + [DoneMessage] == [SlotEvent(o, 1, 1), DoneMessage];
  }

  /** A JSON text cut after `{"typ` is not a message. */
  lemma CutHeadIgnored(st: State)
    ensures ApplyLine(st, CutHead) == st
  {
    assert CutHead[..|DataPrefix|] == DataPrefix;
    var json := CutHead[|DataPrefix|..];
    assert json == "{\"typ";
    assert json != DoneJson;
    assert AfterLiteral(json, ErrorPrefix) == None;
    assert AfterLiteral(json, NumberPrefix) == None;
  }

  /** A line that does not start with `data: ` is skipped. */
  lemma CutTailIgnored(st: State)
    ensures ApplyLine(st, "e\":\"done\"}") == st
  {
    assert "e\":\"done\"}"[0] != DataPrefix[0];
  }

  /** A frame followed by the start of a line splits into the data line, a blank line and that start. */
  lemma SplitFrameThen(m: Message, rest: string)
    requires NoNewline(rest)
    ensures Split(Frame(m) + rest) == [DataLine(m), "", rest]
  {
    SplitFrame(m, rest);
    SplitSingle(rest);
  }

  /** The end of a line and a blank line split into that end and two empty pieces. */
  lemma SplitLineEnd(t: string)
    requires NoNewline(t)
    ensures Split(t + "\n\n") == [t, "", ""]
  {
    assert t + "\n\n" == t + ("\n" + ("\n" + ""));
    SplitLine(t, "\n" + "");
    assert "\n" + "" == "" + ("\n" + "");
    SplitLine("", "");
  }

  /** The two chunks together are the run's stream. */
  lemma CutChunksAreStream()
    ensures Concat([Frame(FortyTwo) + CutHead, CutTail]) == Frames([FortyTwo, DoneMessage])
  {
    assert Frame(DoneMessage) == CutHead + CutTail;
    var chunks := [Frame(FortyTwo) + CutHead, CutTail];
    assert Concat(chunks[1..]) == CutTail + "";
    assert Frames([FortyTwo, DoneMessage][1..]) == Frame(DoneMessage) + "";
  }

  /**
   * The as-written client loses a frame cut across two chunks: a one-slot
   * run that streams 42 and `done`, delivered as the chunks
   * `<number frame>data: {"typ` and `e":"done"}\n\n`, leaves the client
   * still generating with 42 counted; reading with reassembled lines ends
   * the run.
   */
  lemma SplitFrameLost(key: Option<string>, upstream: nat -> Attempt, draws: nat -> Sample)
    requires !KeyMissing(key) && upstream(0) == Completion(Some(" 42\n"))
    ensures var events := Post(Body(Some(1)), key, upstream, draws, None).response.events;
      var chunks := [Frame(FortyTwo) + CutHead, CutTail];
      var reply := Responded(200, Some(BodyStream(chunks, Finished)));
      Concat(chunks) == Frames(events) &&
      HandleGenerate(1, reply).isGenerating &&
      HandleGenerate(1, reply).rawNumbers == [42] &&
      !HandleGenerateBuffered(1, reply).isGenerating
  {
    OneSlotRun(key, upstream, draws);
    CutChunksAreStream();
    var chunks := [Frame(FortyTwo) + CutHead, CutTail];
    var st0 := Start(1);
    var st1 := Apply(st0, FortyTwo);
    assert st1.isGenerating && st1.rawNumbers == [42];
    AsWrittenMissesDone(st0, FortyTwo);
    BufferedClientSeesRun(1, key, upstream, draws, chunks);
  }

  /** Three lines in order. */
  lemma ApplyThreeLines(st: State, a: string, b: string, c: string)
    ensures ApplyLines(st, [a, b, c]) == ApplyLine(ApplyLine(ApplyLine(st, a), b), c)
  {
    var s1 := ApplyLine(st, a);
    var s2 := ApplyLine(s1, b);
    assert [a, b, c][1..] == [b, c];
    assert ApplyLines(st, [a, b, c]) == ApplyLines(s1, [b, c]);
    assert [b, c][1..] == [c];
    assert ApplyLines(s1, [b, c]) == ApplyLines(s2, [c]);
    assert [c][1..] == [];
    assert ApplyLines(s2, [c]) == ApplyLines(ApplyLine(s2, c), []);
  }

  /** The first chunk applies the whole frame's message; its cut line is skipped. */
  lemma FirstChunk(st0: State, m: Message)
    ensures ApplyLines(st0, Split(Frame(m) + CutHead)) == Apply(st0, m)
  {
    assert NoNewline(CutHead);
    SplitFrameThen(m, CutHead);
    ApplyDataLine(st0, m);
    CutHeadIgnored(Apply(st0, m));
    ApplyThreeLines(st0, DataLine(m), "", CutHead);
  }

  /** The second chunk changes nothing: its first line lacks the `data: ` prefix. */
  lemma SecondChunk(st: State)
    ensures ApplyLines(st, Split(CutTail)) == st
  {
    var tail := "e\":\"done\"}";
    assert tail + "\n\n" == CutTail;
    SplitLineEnd(tail);
    CutTailIgnored(st);
    ApplyThreeLines(st, tail, "", "");
  }

  /** The per-chunk reader applies the message of the whole frame and nothing of the cut one. */
  lemma AsWrittenMissesDone(st0: State, m: Message)
    ensures ApplyChunks(st0, [Frame(m) + CutHead, CutTail]) == Apply(st0, m)
  {
    var chunks := [Frame(m) + CutHead, CutTail];
    var st1 := Apply(st0, m);
    FirstChunk(st0, m);
    SecondChunk(st1);
    assert chunks[1..] == [CutTail];
    assert ApplyChunks(st0, chunks) == ApplyChunks(st1, [CutTail]);
    assert [CutTail][1..] == [];
    assert ApplyChunks(st1, [CutTail]) == ApplyChunks(st1, []);
  }
}
