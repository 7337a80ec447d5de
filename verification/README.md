# AI random number generator — a Dafny model of its core

The application asks a language model for random numbers between 1 and 100
and shows how they are distributed. Its core is modelled here:

- `generateRandomNumber` (`src/lib/openrouter.ts`). It asks the completion
  service for a number and reads the first run of digits out of the trimmed
  answer. If there is no run, or the run's value is outside 1..100, it falls
  back to a random value. A missing API key throws at once; any failure after
  the key check is retried, for at most three attempts.
- The `POST /api/generate` handler (`src/app/api/generate/route.ts`). It
  checks that the requested count is 1, 5 or 30. It then runs one
  `generateRandomNumber` call per slot, one slot after another. It streams a
  `number` or `error` event per slot, and then `done`, as
  `data: <json>\n\n` frames.
- `handleGenerate` of the dashboard (`src/components/Dashboard.tsx`). It
  resets the run state and posts the request. It reads the body chunk by
  chunk and folds every `data: ` line into the histogram, the raw numbers,
  the progress, the error and the `isGenerating` flag.
- The histogram helpers (`src/lib/histogram.ts`): 100 bins labelled 1..100,
  immutable increment and reset.
- The integer statistics of the statistics panel
  (`src/components/StatsPanel.tsx`): the total, the count of distinct
  values, the highest count, the most-frequent bins, the five shown and the
  "+k more" badge.

Modules, in dependency order:

- `Wrappers`: `Option`.
- `Decimal`: digits and the decimal writing of integers.
- `Histogram`: the bin table.
- `NumberText`: `trim`, the `/\d+/` match and the range check.
- `OpenRouter`: one call with its retries.
- `Wire`: the event messages, their JSON text and the frames.
- `Lines`: `split("\n")` and a line reader with a carry-over buffer.
- `Route`: the handler and the event stream.
- `Dashboard`: the client fold.
- `Stats`: the panel figures.
- `Pipeline`: end-to-end properties of a run, from the server's events
  to the client's state.

Abstractions that stand in for the environment:

- **The completion service.** It is a script `upstream: nat -> Attempt`,
  indexed by global request number. The attempt at index `k` either threw,
  came back not-ok with a status and body text, or carried the optional
  content. The slots of a run read the script one after another, each
  starting where the previous one stopped.
- **`Math.random()`.** A random draw is a parameter `sample` in 0..99. The
  fallback value is `sample + 1`. In a run, `draws(i)` is slot `i`'s draw.
- **The API key.** `process.env.OPENROUTER_API_KEY` is an optional string
  parameter. The empty string counts as missing, as `!apiKey` does.
- **The request body.** It is either the value `request.json()` threw, or
  the `count` field when that is a number.
- **The response body.** The client sees the body as its decoded chunks,
  plus how reading ended: the reader said `done`, or a read threw.
- **The exception outside the per-slot `try`.** An exception escaping the
  slot loop (route.ts:80-90) is an optional `Fault`: what was thrown, and
  after how many slots.

The slot loop is a sequential `for` with an `await` per slot (route.ts:37-40),
so slot `i + 1` starts only after slot `i` has sent its event. After an
error outside the per-slot `try`, the stream ends with that error event and
no `done` is sent. Progress is 1-based
(`progress: i`, `i` from 1). A server `error` event sets the error and
clears `isGenerating`, but the client keeps applying later lines, so a
`done` or further numbers can follow.

## Model

| member | source | states |
|---|---|---|
| Histogram.Initial | src/lib/histogram.ts:6-11 | 100 bins; bin `i` is labelled `i + 1` and has count 0 |
| Histogram.Increment | src/lib/histogram.ts:17-31 | a value outside 1..100 returns the table unchanged; otherwise the labels are kept and only the bin at index `n - 1` gains exactly one |
| Histogram.Reset | src/lib/histogram.ts:36-38 | same length and labels as the input, every count 0 |
| Histogram.IncrementTotal | src/lib/histogram.ts:17-31 | incrementing raises the sum of all counts by one exactly when the value is in range and has a bin, and leaves it otherwise |
| Histogram.ResetIdempotent | src/lib/histogram.ts:36-38 | resetting twice is resetting once |
| Histogram.ResetIsInitial | src/lib/histogram.ts:6-11 | resetting a labelled 100-bin table gives the initial table, whose total is 0 |
| Histogram.IncrementAllAppend | src/lib/histogram.ts:17-31 | counting a sequence of values and then one more value is the same as counting the longer sequence |
| Histogram.CountInRangeAppend | src/lib/histogram.ts:19-22 | one more value adds one to the in-range count exactly when it lies in 1..100 |
| Histogram.TallyCounts | src/lib/histogram.ts:17-31 | the table built from the initial one by counting a run keeps 100 labelled bins; bin `v` holds the number of occurrences of `v` in the run; the total equals the number of in-range values |
| Decimal.NatStr | src/app/api/generate/route.ts:43-50 | the decimal writing of a natural is a non-empty digit string with no leading zero unless the value is 0 |
| Decimal.IntStr | src/app/api/generate/route.ts:43-50 | the decimal writing of an integer is non-empty and starts with a digit exactly when the integer is non-negative |
| Decimal.NatStrValue | src/lib/openrouter.ts:71 | reading the decimal writing of `n` in base 10 gives back `n` |
| Decimal.NatStrInjective | src/app/api/generate/route.ts:43-50 | distinct naturals have distinct decimal writings |
| Decimal.LeadingZeroIgnored | src/lib/openrouter.ts:71 | a leading '0' does not change the base-10 value of a digit string |
| NumberText.Trim | src/lib/openrouter.ts:57 | the trimmed text is a slice of the input whose ends are not white space; it is empty exactly when the input is all white space |
| NumberText.MatchDigits | src/lib/openrouter.ts:64 | no match exactly when the text holds no ASCII digit; a match is a non-empty run of digits |
| NumberText.MatchDigitsFindsFirstRun | src/lib/openrouter.ts:64 | the match is the first maximal run of digits: the characters before it are not digits and the character after it is not a digit |
| NumberText.FirstRunUnique | src/lib/openrouter.ts:64 | a text has at most one first maximal digit run |
| NumberText.MinusNotMatched | src/lib/openrouter.ts:64 | a leading minus sign is not part of the match |
| NumberText.MatchIgnoresTrim | src/lib/openrouter.ts:57-64 | trimming never changes which digit run is matched |
| NumberText.ValueOf | src/lib/openrouter.ts:64-79 | the value is always in 1..100; with no digits it is the fallback `sample + 1`; a matched run in 1..100 gives its base-10 value; a run outside 1..100 gives the fallback |
| NumberText.ValueOfIgnoresTrim | src/lib/openrouter.ts:57-79 | the value read from an answer does not depend on the white space around it |
| NumberText.ValueOfStatedNumber | src/lib/openrouter.ts:64-79 | an answer stating `n` in 1..100, with no digit before it and none directly after, is read as `n` whatever the draw |
| NumberText.ValueOfLeadingZeros | src/lib/openrouter.ts:71 | "007" reads as 7 |
| NumberText.ValueOfNegative | src/lib/openrouter.ts:64-71 | "-5" reads as 5 |
| NumberText.ValueOfOutOfRange | src/lib/openrouter.ts:74-77 | "0" and "150" fall back to the draw |
| NumberText.ValueOfNoDigits | src/lib/openrouter.ts:65-69 | an answer without digits falls back to the draw |
| OpenRouter.Once | src/lib/openrouter.ts:51-80 | an attempt gives a value exactly when its content exists and is not all white space, and the value is the one read from that content, in 1..100; a thrown attempt is retried with its own message; a not-ok response fails with the API error text carrying status and body; missing or blank content fails with the empty-response message |
| OpenRouter.Retry | src/lib/openrouter.ts:80-95 | starting at retry `rc`, between 1 and `3 - rc` requests are sent; a returned number is the value of the last attempt made |
| OpenRouter.RetryValue | src/lib/openrouter.ts:80-88 | a call that returns a number failed on every attempt before the one that succeeded |
| OpenRouter.RetryRaised | src/lib/openrouter.ts:84-95 | a call that throws sent exactly three requests, failed on all of them, and throws the "after 3 attempts" message wrapping the third attempt's failure |
| OpenRouter.Generate | src/lib/openrouter.ts:22-28 | without a key the call throws the missing-key error and sends nothing; with a key it sends between 1 and 3 requests; a returned number lies in 1..100 |
| OpenRouter.RetryInRange | src/lib/openrouter.ts:64-88 | a number the retry recursion returns is in 1..100 |
| OpenRouter.FetchDecidedByFirstValue | src/lib/openrouter.ts:79-88 | if attempts `0..k-1` fail and attempt `k` gives a value, the call returns that value after `k + 1` requests |
| OpenRouter.FailedBefore | src/lib/openrouter.ts:84-88 | a retried stretch of attempts failed on every one of them |
| OpenRouter.FetchExhausted | src/lib/openrouter.ts:91-95 | if all three attempts fail, the call sends three requests and throws the exhaustion message wrapping the third failure |
| OpenRouter.FetchLoop | src/lib/openrouter.ts:22-97 | the loop form of the recursive retry computes the same outcome and request count, at most three requests, and an in-range value |
| OpenRouter.FetchStatedAnswer | src/lib/openrouter.ts:56-79 | a first answer " n\n" with `n` in 1..100 returns `n` after one request |
| OpenRouter.FetchFirstAnswer | src/lib/openrouter.ts:56-79 | a first answer " 42\n" returns 42 after one request |
| OpenRouter.FetchEmptyAfterErrors | src/lib/openrouter.ts:51-95 | two not-ok responses followed by blank content throw the exhaustion message wrapping the empty-response message, after three requests |
| OpenRouter.FetchAfterThrows | src/lib/openrouter.ts:80-95 | three attempts that throw end the call with the exhaustion message wrapping the third attempt's message, after three requests |
| Wire.HexDigit | src/app/api/generate/route.ts:58-63 | the hex digit written for `d < 16` reads back as `d` |
| Wire.EscapeChar | src/app/api/generate/route.ts:58-63 | the JSON escape of one character is non-empty, has no newline and does not start with a quote |
| Wire.Escape | src/app/api/generate/route.ts:58-63 | the escaped text is at least as long as the original; `ParseStringEscape` reads it back |
| Wire.EscapeNoNewline | src/app/api/generate/route.ts:58-63 | the escaped text of any string holds no raw newline |
| Wire.Encode | src/app/api/generate/route.ts:43-50 | the JSON text of a message is an object whose first member is `type`, closed by `}` |
| Wire.Decode | src/components/Dashboard.tsx:74 | only text that starts as an object with a `type` member parses; the message `done` is read from exactly the text `{"type":"done"}` |
| Wire.ParseStringEscape | src/components/Dashboard.tsx:74 | reading a JSON string back from its escaped form followed by the closing quote gives the original text and the length consumed |
| Wire.ParseEscapedChar | src/components/Dashboard.tsx:74 | reading one escaped character gives that character and moves past its escape |
| Wire.ParseNatStr | src/components/Dashboard.tsx:74 | a written natural followed by a non-digit reads back as that natural |
| Wire.ParseIntStr | src/components/Dashboard.tsx:74 | a written integer followed by a non-digit reads back as that integer |
| Wire.EncodeNoNewline | src/app/api/generate/route.ts:50 | the JSON text of a message never contains a newline, so a frame's data line is one line |
| Wire.DecodeEncode | src/types/api.ts:11-27 | parsing the JSON text of any message gives back that message |
| Wire.EncodeInjective | src/types/api.ts:11-27 | distinct messages have distinct JSON texts |
| Wire.Frame | src/app/api/generate/route.ts:50 | every frame starts with the `data: ` field name |
| Wire.Frames | src/app/api/generate/route.ts:50 | the body is empty exactly when there are no events; otherwise it starts with `data: ` and ends with a newline |
| Wire.SplitFrames | src/app/api/generate/route.ts:50 | splitting a stream of frames on "\n" gives each event's data line followed by a blank line, then one final empty piece |
| Wire.SplitFrame | src/app/api/generate/route.ts:50 | splitting a frame followed by any text gives the frame's data line, a blank line, then the pieces of the rest |
| Lines.Split | src/components/Dashboard.tsx:66 | the pieces of `split("\n")` are at least one, and none contains a newline |
| Lines.JoinSplit | src/components/Dashboard.tsx:66 | joining the pieces with "\n" gives back the text |
| Lines.SplitJoin | src/components/Dashboard.tsx:66 | splitting the newline-joined pieces gives back the pieces |
| Lines.SplitAppend | src/components/Dashboard.tsx:64-66 | the pieces of a concatenation are the first text's pieces with its last piece glued to the second text's first piece |
| Lines.Feed | src/components/Dashboard.tsx:57-66 | every line the buffered reader releases is free of newlines; after at least one chunk the carried buffer holds no newline; with no chunks it releases nothing and keeps the buffer |
| Lines.FeedIsChunkingIndependent | src/components/Dashboard.tsx:57-66 | the buffered reader emits the complete lines of the whole body and keeps its last partial line, however the body is cut into chunks |
| Lines.FeedAgreesOnWholeLines | src/components/Dashboard.tsx:57-66 | when every chunk ends in a newline, the buffered reader keeps nothing back and emits the same non-empty lines as splitting each chunk alone |
| Lines.NonEmpty | src/components/Dashboard.tsx:68-71 | the non-empty lines are exactly the input's lines other than "" |
| Lines.NonEmptyAppend | src/components/Dashboard.tsx:68-71 | keeping the non-empty lines commutes with concatenation |
| Route.SlotEvent | src/app/api/generate/route.ts:43-63 | a slot's event is a number exactly when its call returned one; the number event carries the value, the 1-based slot index and the count; the error event carries the thrown message |
| Route.Caller | src/app/api/generate/route.ts:37-40 | every slot call of the real handler sends at most three requests and returns only in-range numbers |
| Route.CallerWithoutKey | src/lib/openrouter.ts:26-28 | without a key every slot call throws the missing-key error and sends nothing |
| Route.Slots | src/app/api/generate/route.ts:37-69 | the slots from `i` to `last` give one event each, and the request count never goes down |
| Route.Post | src/app/api/generate/route.ts:13-118 | a JSON error is returned exactly when the body is unreadable or the count is missing or not 1, 5 or 30, and then nothing is sent upstream; an unreadable body gives status 500 with the thrown message or "Internal server error"; a bad count gives 400 with the fixed message; otherwise the response streams the run's events |
| Route.SlotsShape | src/app/api/generate/route.ts:37-69 | slot `i + j` produces event `j`; no slot event is `done`; each slot sends at most three requests |
| Route.SlotsAllRaised | src/app/api/generate/route.ts:54-67 | when every call throws the same message at once, every slot's event is that error and nothing is sent |
| Route.Stream | src/app/api/generate/route.ts:37-93 | without a fault the stream holds one event per slot and then `done`; with a fault after `a` slots it holds the events of the slots that ran, `min(a, count)`, then the error event for what was thrown |
| Route.StreamComplete | src/app/api/generate/route.ts:37-77 | without a fault, a run streams exactly `count` slot events, the `k`-th with progress `k + 1`, then one final `done`, with at most three requests per slot |
| Route.StreamFault | src/app/api/generate/route.ts:80-93 | with a fault, the stream holds the events of the slots that ran and ends with the error event; no `done` is ever sent |
| Route.StreamWithoutKey | src/app/api/generate/route.ts:37-77 | without a key, a run streams one missing-key error per slot and then `done`, and sends nothing upstream |
| Route.SlotsStep | src/app/api/generate/route.ts:37-69 | after running slot `i`, the events so far plus those of the remaining slots are still the whole run |
| Route.ResumesEnds | src/app/api/generate/route.ts:37-69 | the run resumes from slot 1 with nothing done; once all slots have run, the events and requests so far are the whole run's |
| Route.StreamLoop | src/app/api/generate/route.ts:37-77 | the slot loop yields exactly the run's events, ending in `done`, and its request count |
| Route.RunSlot | src/app/api/generate/route.ts:37-68 | one turn of the slot loop calls slot `i` with the requests used so far, appends its event, adds its requests, and keeps the run resumable |
| Route.StreamAfterSlots | src/app/api/generate/route.ts:71-77 | once every slot has run, the stream is the slots' events followed by `done`, with the slots' request count |
| Dashboard.Start | src/components/Dashboard.tsx:25-29 | a run starts generating, with no error, no numbers, an empty 100-bin table and progress 0 of `count` |
| Dashboard.Apply | src/components/Dashboard.tsx:76-97 | a number is counted in the table, appended to the raw numbers and becomes the progress; `done` only stops generating; an error is recorded and stops generating; nothing else changes |
| Dashboard.Fail | src/components/Dashboard.tsx:104-115 | a failure always stops generating and keeps the table, the numbers and the progress; an abort keeps the error as it was; another `Error` shows its message; a non-`Error` shows "Unknown error occurred" |
| Dashboard.ApplyLine | src/components/Dashboard.tsx:68-100 | a line that does not start with `data: `, or whose rest does not parse, leaves the state alone; otherwise the parsed message is applied; at most one number is appended and an ended run stays ended |
| Dashboard.ApplyLines | src/components/Dashboard.tsx:68-100 | reading lines only appends numbers, at most one per line, and never restarts an ended run |
| Dashboard.ApplyChunks | src/components/Dashboard.tsx:57-100 | the read loop as written only appends numbers, at most one per piece of the chunks' own splits, and never restarts an ended run |
| Dashboard.ApplyChunksBuffered | src/components/Dashboard.tsx:57-100 | the buffered read loop applies exactly the complete lines of the whole body, however it is cut into chunks |
| Dashboard.Handle | src/components/Dashboard.tsx:23-119 | the run is still generating only after a stream that finished without error; a rejected fetch is handled by the `catch`; a non-ok status or a missing body shows its error with no numbers; a finished stream's state is the one the read loop reaches; a stream whose read threw keeps what the read loop applied and then goes through the `catch` with that failure |
| Dashboard.HandleGenerate | src/components/Dashboard.tsx:23-119 | a rejected fetch ends with no numbers and generating stopped; a non-ok status shows the HTTP error and a missing body shows "No response body", each with no numbers and generating stopped; a finished stream ends in the state the per-chunk read loop reaches from the start state; a stream whose read threw keeps that loop's state and then goes through the `catch` |
| Dashboard.HandleGenerateBuffered | src/components/Dashboard.tsx:23-119 | the same error paths as the code as written; a finished stream ends in the state the buffered read loop reaches from the start state, which applies the complete lines of the whole body; a stream whose read threw keeps that state and then goes through the `catch` |
| Dashboard.NumbersAppend | src/components/Dashboard.tsx:76-81 | the numbers of a longer message sequence are those of the shorter one followed by the new message's number, if it carries one |
| Dashboard.EndsCons | src/components/Dashboard.tsx:90-97 | a message sequence ends a run exactly when its first message is `done` or an error, or the rest ends a run |
| Dashboard.ApplyAllNumbers | src/components/Dashboard.tsx:81 | folding messages appends exactly the values of the number messages, in order |
| Dashboard.ApplyAllConsistent | src/components/Dashboard.tsx:78-81 | the table stays the tally of the raw numbers through any sequence of messages |
| Dashboard.ApplyRaw | src/components/Dashboard.tsx:81 | one message appends its value if it is a number and nothing otherwise |
| Dashboard.ApplyConsistent | src/components/Dashboard.tsx:78-81 | one message keeps the table equal to the tally of the raw numbers |
| Dashboard.ApplyAllEnds | src/components/Dashboard.tsx:90-97 | after folding messages the client is still generating exactly when it was before and no `done` or error arrived |
| Dashboard.ApplyAllProgress | src/components/Dashboard.tsx:84-87 | the progress shown is the one of the last number message |
| Dashboard.ApplyAllKeepsProgress | src/components/Dashboard.tsx:84-87 | messages without a number leave the progress alone |
| Dashboard.ApplyLinesAppend | src/components/Dashboard.tsx:68 | applying two line sequences one after the other is applying their concatenation |
| Dashboard.ApplyLinesNonEmpty | src/components/Dashboard.tsx:70 | empty lines have no effect |
| Dashboard.ApplyDataLine | src/components/Dashboard.tsx:70-74 | the data line of a message applies that message |
| Dashboard.ApplyEmptyLine | src/components/Dashboard.tsx:70 | the blank line between frames has no effect |
| Dashboard.ApplyFrameLines | src/components/Dashboard.tsx:68-97 | the lines of a sequence of frames apply their messages in order |
| Dashboard.ApplyChunksIsLines | src/components/Dashboard.tsx:57-68 | the read loop as written applies the concatenation of each chunk's own split |
| Dashboard.BufferedReadsFrames | src/components/Dashboard.tsx:57-97 | a reader that carries partial lines over applies exactly the streamed messages, however the frames were cut into chunks |
| Dashboard.WholeLineChunksAgree | src/components/Dashboard.tsx:57-68 | when every chunk ends in a newline, the code as written and the buffered reader reach the same state |
| Stats.NonZero | src/components/StatsPanel.tsx:21 | the filtered bins are exactly the input's bins with a positive count |
| Stats.WithCount | src/components/StatsPanel.tsx:24 | the filtered bins are exactly the input's bins with the given count, and there are no more of them than bins |
| Stats.WithCountMultiplicity | src/components/StatsPanel.tsx:24 | each kept bin occurs in the result as often as in the table, and no other bin occurs |
| Stats.WithCountIncreasing | src/components/StatsPanel.tsx:24 | filtering a table with increasing labels keeps the labels increasing, so the table order is kept |
| Stats.MaxCount | src/components/StatsPanel.tsx:22 | absent only for an empty table; otherwise it is some bin's count and no bin's count exceeds it |
| Stats.ShownCount | src/components/StatsPanel.tsx:54 | the number of bins shown is the list length when that is at most five, and five otherwise |
| Stats.Panel | src/components/StatsPanel.tsx:17-66 | for a non-empty run: the total, the number of positive bins as the distinct count, the highest positive count, the most-frequent list as exactly the positive bins with that count, its first five as the shown ones, and a "+k more" badge exactly when more than five, with `k` the rest |
| Stats.Summarize | src/components/StatsPanel.tsx:12-66 | nothing is shown for an empty run; otherwise the total is the run length; the distinct count is the number of bins with a positive count; the highest count is the largest positive count; the most-frequent list is exactly the positive bins with that count; the first five of it are shown; a "+k more" badge appears exactly when more than five, and `k` counts the rest |
| Stats.IncreasingCard | src/components/StatsPanel.tsx:27 | a strictly increasing label list has as many distinct labels as entries |
| Stats.NonZeroIncreasing | src/components/StatsPanel.tsx:21 | filtering keeps labels strictly increasing |
| Stats.NonZeroLabelsOfTally | src/components/StatsPanel.tsx:21 | the labels of a run's non-empty bins are exactly the distinct in-range values received |
| Stats.UniqueIsDistinctValues | src/components/StatsPanel.tsx:27 | "unique" is the number of distinct in-range values received |
| Stats.TallyBin | src/lib/histogram.ts:17-31 | every bin of a run's table sits at its label's index and counts that label's occurrences |
| Stats.MaxCountOfTally | src/components/StatsPanel.tsx:22 | for a non-empty run the highest count is how often the most common value was received: some value exactly that often, none more |
| Stats.WithCountOfTally | src/components/StatsPanel.tsx:24 | the bins with count `m > 0` are exactly the values received `m` times |
| Stats.MostFrequentOfTally | src/components/StatsPanel.tsx:21-24 | the most-frequent list of a run is non-empty and holds exactly the values received as often as the highest count, which no value exceeds |
| Stats.WithCountOfTallyInOrder | src/components/StatsPanel.tsx:21-24 | the bins of a run's table with count `m > 0` are in increasing value order, one for each value received `m` times |
| Stats.MostFrequentInOrder | src/components/StatsPanel.tsx:21-27 | the most-frequent list of a non-empty run is in increasing value order, one bin per value received as often as the highest count |
| Stats.ShownAreSmallest | src/components/StatsPanel.tsx:54-66 | each shown most-frequent value is below every hidden one |
| Pipeline.NumbersOfSlots | src/app/api/generate/route.ts:43-51 | slot events carry at most one number each, and all of them lie in 1..100 |
| Pipeline.RunNumbers | src/app/api/generate/route.ts:37-77 | a complete run's events carry at most `count` numbers, all in 1..100 |
| Pipeline.ReadRun | src/components/Dashboard.tsx:76-92 | reading a complete run's events from the start state ends the run, holds exactly the run's numbers, keeps the table equal to their tally, and all values are in range and at most `count` |
| Pipeline.BufferedClientSeesRun | src/components/Dashboard.tsx:57-97 | the client with a carry-over buffer, reading any chunking of a complete run's body, stops generating with the server's numbers and their tally |
| Pipeline.BufferedClientReadsRun | src/components/Dashboard.tsx:57-97 | the same, for any stream shaped like a complete run |
| Pipeline.ClientOnWholeLines | src/components/Dashboard.tsx:64-66 | when every chunk ends at a line end, the client as written reaches the buffered client's state |
| Pipeline.BufferedClientUnique | src/components/StatsPanel.tsx:27 | after a complete run the panel's distinct count is the number of distinct values the server sent |
| Pipeline.OneSlotRun | src/app/api/generate/route.ts:37-77 | a one-slot run whose first answer is " 42\n" streams the number 42 at 1 of 1, then `done`, after one request |
| Pipeline.CutChunksAreStream | src/app/api/generate/route.ts:50 | the two chunks of the counterexample together are exactly that run's body |
| Pipeline.AsWrittenMissesDone | src/components/Dashboard.tsx:64-66 | the client as written, fed a frame plus the head of a `done` frame and then its tail, applies only the first message |
| Pipeline.SplitFrameLost | src/components/Dashboard.tsx:64-66 | for that run cut inside the `done` frame, the client as written still shows "generating" with the number 42, while the buffered client has stopped |

## Left out

- HTTP headers, the request URL, the model name, the prompt and the temperature are not modelled. They do not affect any result.
- Console logging and the one-second wait before a retry are not modelled; they have no effect on results.
- Whether the completion service is reachable is abstracted: each attempt is a scripted outcome. A thrown `fetch` or a failed `response.json()` is a `Threw` attempt.
- `choices[0].message.content` that is present but not a string is not modelled. Content is an optional string.
- `Math.random()` is a parameter: one draw in 0..99 per call.
- `parseInt` on a digit run is exact in the model. JavaScript's `parseInt` loses precision only when the run's value is above 2^53. Such a value is far above 100 and still reads as above 100, so the range check falls back either way.
- Wire.Decode accepts the text `JSON.stringify` writes for the three message kinds, and inside the error string also the other escapes `JSON.parse` reads (`\/`, upper-case hex, `\uXXXX` for any code unit that is not a surrogate). It requires the fields in the order `JSON.stringify` writes them and no white space, while `JSON.parse` accepts any order and white space. Such text never comes from this server. A line the model cannot parse is ignored, as the client's `catch` does.
- Wire.Escape writes characters as `JSON.stringify` does for well-formed text. Lone surrogate code units, written as `\udXXX`, are not modelled.
- `TextDecoder` is not modelled: the body is seen as already decoded text chunks. A multi-byte character split across two network chunks is out of scope.
- The average in the statistics panel is floating-point division with `toFixed(1)` and is not modelled.
- Rendering by React and the chart components are not modelled.
- Overlapping runs are not modelled. A server `error` event clears `isGenerating` while the read loop keeps reading. That re-enables Generate (Dashboard.tsx:127-128), and the Retry button (Dashboard.tsx:139-147) is never disabled. So a second `handleGenerate` can reset the state (Dashboard.tsx:24-29) while the first run is still reading. The first run's later numbers then join the second run's table and raw list through the functional updates at Dashboard.tsx:78 and :81. Its progress and `done` overwrite the second run's through the setters at Dashboard.tsx:84-92. The model treats each run as the only writer of the dashboard state.
- The abort controller: `handleGenerate` creates one (Dashboard.tsx:33) and passes its signal to `fetch` (Dashboard.tsx:42), but nothing ever calls `abort()`, so an `AbortError` cannot arise from this component. The abort branch of Dashboard.Fail follows the text of the `catch` (Dashboard.tsx:106-108) only.
- `controller.close()` and stream cancellation are not modelled. A failed `enqueue` is represented only by the optional `Fault`.
- Route.Stream: when the fault is a failed `enqueue` (the client went away), the model still delivers the final error event, which the real stream could not send. The requests made by a slot interrupted while sending its event are not counted.
- The health route and the page layout are not part of the core and are not modelled.
- Route.Post does not model the type checks TypeScript erases. A `count` that is not a number is "missing", and only 1, 5 and 30 pass `includes`.

## Findings

| source | as written | input that shows it | evidently intended | confidence | as-written member | corrected member |
|---|---|---|---|---|---|---|
| src/components/Dashboard.tsx:64-66 | each chunk is split on "\n" alone, with no buffer carrying a partial line into the next chunk, so a frame cut across two chunks is dropped | a one-slot run answered " 42\n", whose body arrives as `Frame(42 at 1/1) + "data: {\"typ"` and then `"e\":\"done\"}\n\n"` | the client keeps the unfinished last line and prepends it to the next chunk, so it sees every event the server sent, here `done` | not executed | Pipeline.SplitFrameLost | Dashboard.HandleGenerateBuffered |
