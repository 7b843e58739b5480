# cf-reader word pipeline, modelled in Dafny

The cf-reader page measures how fast a Workers + KV backend answers. It asks the
backend how many words it holds. On a click it fetches the words `0..count-1`
strictly one after another. It folds each fetched result into a transcript. The
transcript is a list of paragraphs, each a list of words. The literal word
`**Break**` is a sentinel: it opens a new empty paragraph and is not stored.
When the run is over the page shows the total time of the requests and their
average latency. A run status goes `ready`, then `processing`, then `complete`.
The start button is enabled only while the status is `ready`.

The model has four modules:

- `Transcripts` (`transcript.dfy`): words, paragraphs and transcripts as values.
  `AddWord` is the state updater that folds one result in. `Replay` folds a
  sequence of results in order. `Flatten` concatenates the paragraphs. The
  lemmas state what a fold does to the flattened transcript, to the number of
  paragraphs and to the earlier paragraphs.
- `Analytics` (`analytics.dfy`): `TotalRunTime` and `AverageLatency` over the
  flattened transcript. Durations are `real` milliseconds. The average of an
  empty transcript (zero divided by zero on the page) is `None`.
- `RunStatus` (`status.dfy`): the three statuses, their order, the button
  guard, and the status after one result.
- `Reader` (`reader.dfy`): the page component as a class `App` with the
  fields `count`, `words` and `status`. `Start` is the sequential loop. `Click`
  is the button, which only reacts in `ready`. The words endpoint is a
  sequence of responses: response `i` is what `GET /words/i` answers, with its
  measured duration. `Start` returns a ghost log of its requests and folds,
  so the one-request-at-a-time order is part of its contract.

Two behaviours of the code are modelled as written:

- With `count == 0` no result is ever handled, so the status stays
  `processing` and never becomes `complete` (`Reader.EmptyRun`).
- `start` does not reset the transcript and does not check the status. Only
  the disabled button stops a second run.
  `App.Start` on its own would move a `complete` page back to `processing`.
  `App.Click` never does, and after one click the page is never `ready` again.

## Model

| member | source | states |
|---|---|---|
| `Transcripts.Flatten` | src/App.js:64 | `words.flat()`: the paragraphs concatenated in order; what it holds is stated by `FlattenMembers`, `AddWordFlatten` and `ReplayFlatten` |
| `Transcripts.FlattenMembers` | src/App.js:64 | a word is in the flattened transcript exactly when some paragraph holds it |
| `Transcripts.ContentAndSentinels` | src/App.js:48-55 | every result is either kept as a word or counted as a sentinel: kept words plus sentinels equals the number of results |
| `Transcripts.AddWord` | src/App.js:48-55 | a sentinel appends one empty paragraph and keeps every existing one; any other word goes at the end of the last paragraph; all earlier paragraphs are unchanged; the result is never empty |
| `Transcripts.AddWordFlatten` | src/App.js:48-55 | one fold extends the flattened transcript by that word, or by nothing for a sentinel |
| `Transcripts.AddWordNoBreak` | src/App.js:49 | a fold never stores a sentinel in a paragraph |
| `Transcripts.Replay` | src/App.js:58-60 | folding results in order never leaves the transcript empty |
| `Transcripts.ReplayFlatten` | src/App.js:48-60 | after folding results in order, the flattened transcript is the old one followed by the results with the sentinels removed, in their order |
| `Transcripts.ReplayParagraphs` | src/App.js:48-55 | folding results adds exactly one paragraph per sentinel |
| `Transcripts.ReplayKeepsEarlier` | src/App.js:51-54 | folding results leaves every paragraph before the last unchanged, and the last one only grows at its end |
| `Transcripts.ReplayNoBreak` | src/App.js:49 | no sequence of folds stores a sentinel |
| `Transcripts.FromInitial` | src/App.js:14-55 | from the initial single empty paragraph: flattened transcript equals the results without sentinels, paragraph count is one plus the number of sentinels, no sentinel stored |
| `Transcripts.ThreeResults` | src/App.js:48-55 | results "a", sentinel, "b" give the paragraphs ["a"] and ["b"] |
| `Analytics.SumDurations` | src/App.js:65 | the `reduce` sum of durations from the first word on; it splits over concatenation (`SumConcat`) and is not negative when no duration is (`SumNonNegative`) |
| `Analytics.SumConcat` | src/App.js:65 | the sum over two runs of words joined is the sum of their sums |
| `Analytics.SumNonNegative` | src/App.js:65 | with no negative duration the sum is not negative |
| `Analytics.TotalRunTime` | src/App.js:68-71 | `totalRunTime`: zero on an empty transcript and not negative when no duration is; its value is stated by `TotalRunTimeAddWord` and `RunFigures` |
| `Analytics.AverageLatency` | src/App.js:63-66 | defined exactly when the flattened transcript is non-empty; then the average times the number of words equals the total |
| `Analytics.TotalRunTimeAddWord` | src/App.js:68-71 | one fold adds the word's duration to the total, and a sentinel adds nothing |
| `Analytics.RunFigures` | src/App.js:63-71 | after a run the total is the sum of the durations of the non-sentinel results; the average is defined exactly when there was one, and is that sum over their number |
| `Analytics.MeanWithin` | src/App.js:65 | the mean of durations lies within any lower and upper bound of them |
| `Analytics.AverageWithin` | src/App.js:63-66 | the average latency lies within any lower and upper bound of the stored durations |
| `RunStatus.ButtonEnabled` | src/App.js:79 | the button is enabled exactly in the status before processing, that is only in `ready` |
| `RunStatus.AfterResult` | src/App.js:44-46 | handling a result never moves the status backwards; it is complete exactly when it was, or when index + 1 reaches the count; otherwise unchanged |
| `Reader.FetchWord` | src/App.js:32-41 | `fetchWord`: the result carries the index asked for, and is a sentinel exactly when the server's word is `**Break**` |
| `Reader.Fetched` | src/App.js:30-41 | the results of a run are, at each position k, the word for index k with the text and duration the server gave for k |
| `Reader.ScheduleIsSequential` | src/App.js:58-60 | a run's events alternate request k, fold k for k = 0, 1, ...: every index once, ascending, each folded before the next is requested |
| `Reader.LastIndexReached` | src/App.js:44-46 | some result of a run reaches the last index exactly when the count is positive |
| `Reader.RunWordCount` | src/App.js:48-60 | after a run over n indices from the initial transcript, the stored words number n less the sentinels, and words plus paragraphs minus one equals n |
| `Reader.App.constructor` | src/App.js:12-15 | count 0, one empty paragraph, status ready, nothing folded |
| `Reader.App.LoadCount` | src/App.js:22 | stores the reported count and changes nothing else |
| `Reader.App.UpdateWords` | src/App.js:43-56 | status becomes the status after this result against the count; the transcript becomes the fold of this result; the class invariant (the transcript is the fold of all results so far from the initial one, and nothing is folded while ready) is kept |
| `Reader.App.Start` | src/App.js:28-61 | request/fold log is the sequential schedule for count; the transcript is the old one with the results for 0..count-1 folded in order, without reset; flattened it equals every result so far without sentinels, with one paragraph more than sentinels; status is complete exactly when a result reached the last index, so processing when count is 0 |
| `Reader.App.Click` | src/App.js:77-79 | does nothing unless ready; from ready it runs from the initial transcript; afterwards the flattened transcript is every result so far without sentinels, there is one paragraph more than sentinels and none is stored; the status never moves backwards and is never ready afterwards |
| `Reader.ThreeWordRun` | src/App.js:28-61 | count 3 with "a", sentinel, "b": transcript [["a"], ["b"]] and status complete |
| `Reader.EmptyRun` | src/App.js:28-61 | count 0: transcript stays one empty paragraph and status stays processing |

## Left out

- Network I/O: the count request, the word requests, `res.json()` and the base URL (src/App.js:6, 17-26, 35-40). The count is a parameter of `LoadCount`; the answers are the `responses` sequence of `Start`.
- Clock: `performance.now()` (src/App.js:34, 37). Durations are given values.
- Floating point: durations are exact `real` numbers, so sums and means carry no rounding. The display formatting with `Math.round` and `toFixed(2)` (src/App.js:115, 121) is not modelled.
- Failure of a request or of JSON decoding: the page has no handling for them; the model assumes every index below the count is answered (`count <= |responses|`).
- Asynchrony: the promise chain (src/App.js:58-60) is a plain loop, and React's batching of state updates is not modelled; each setter takes effect at once.
- Transcripts.AddWord: requires a non-empty transcript for a non-sentinel word. On an empty transcript the page would spread `undefined` and throw; the page never reaches that state, because the transcript starts with one paragraph and never shrinks.
- Rendering: the JSX, `clsx` classes, logo components and the `Word` component's fade-in timer (src/App.js:73-164).
