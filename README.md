# naudiodon PaContext: the byte bridge between chunk queues and PortAudio buffers

This project models the core of `PaContext` in naudiodon, the Node.js binding for
PortAudio. Audio moves between the application and the device in two steps:

- The application's buffers are queued as chunks: a FIFO of variable-length byte
  buffers with a cursor into the chunk being drained.
- Once per buffer period, PortAudio's callback runs. It pushes each input device
  buffer on the input queue as a new chunk. It fills each output device buffer
  from the output queue, crossing chunk boundaries and zero-padding when the
  queue runs dry.

The model covers:

- `fillBuffer`: skip, then copy, then pad.
- Its callers `fillPaBuffer`, `readPaBuffer` and `pullInChunk`, including their
  `uint32_t` byte-count formulas.
- The status latch `checkStatus` / `getErrStr`.
- The callback `PaCallback`: its drift-skip rule on the globals `timeDeltaMs` and
  `prevTime`, and how it combines the return codes.
- The `sampleFormat` mapping of `setParams`.

Files:

- `chunks.dfy` (module `ChunkQueue`): the chunk queue. `Chunks.h` is not part of
  this model. Its behaviour is modelled as a class with:
  - the pending chunks;
  - an optional current chunk and the offset into it;
  - the quitting flag.

  Its abstract state is `Unconsumed()`, the bytes still to be read, in push order.
- `fill_spec.dfy` (module `FillSpec`): what a fill of `n` bytes after skipping
  `k` does to a stream `u`, as pure functions: `Copied`, `Left`, `RunsDry`,
  `Padded`. It also holds lemmas on series of fills.
- `status.dfy` (module `Status`): the status text, plus a decoder that reads the
  flags back out of it.
- `drift.dfy` (module `Drift`): the drift rule, as one step and as a replay over
  many periods, and the class `CallbackClock` holding the two globals.
- `pa_context.dfy` (module `Context`): the class `PaContext`, its methods and the
  callback, written imperatively. Each method is proved against the functions
  above.

`fillBuffer`'s loop is kept as a loop. One pass of it, `FillStep`, is a method of
its own. It is built from the source's steps:

- fetch a chunk with `waitNext`;
- skip with `incOffset`;
- copy with `memcpy` and `incOffset`;
- zero-fill with `memset`.

Two consequences of the loop's shape are worth stating:

- The loop ends as soon as nothing is left to skip or copy (src/PaContext.cc:248).
  So a fill that asks for exactly the bytes that remain gets them all and does
  not set `finished`; only a later non-empty fill finds the queue empty. For
  chunks of 100, 50 and 200 bytes, read by fills of 80, 80, 80, 80 and 30 bytes,
  the fifth fill does not set `finished`. `FillSpec.ThreeChunkScenario` proves
  this.
- A chunk is current when `curBuf()` is not null (src/PaContext.cc:250, :254).
  In this model every chunk has memory. An empty one is used up at once, and
  `waitNext` is called again. A chunk with null memory is not represented (see
  "## Left out").

## Model

| member | source | states |
|---|---|---|
| ChunkQueue.Chunks.Push | src/PaContext.cc:219-225 | Pushing a chunk appends it to the pending chunks and appends its bytes to the unconsumed stream. Once the queue is quitting, the chunk is dropped and nothing changes. |
| ChunkQueue.Chunks.WaitNext | src/PaContext.cc:250-253 | When the current chunk is absent or used up, the oldest pending chunk becomes current at offset 0. With nothing pending, no chunk is current. Otherwise nothing changes. The unconsumed stream is always unchanged. |
| ChunkQueue.Chunks.IncOffset | src/PaContext.cc:264-267 | Advancing the cursor by n, at most the bytes left in the current chunk, drops exactly the first n bytes of the unconsumed stream. |
| ChunkQueue.FlattenAppend | src/PaContext.cc:223 | Appending a chunk to the queue appends its bytes at the end of the stream. |
| ChunkQueue.FlattenLength | src/PaContext.cc:243-284 | The stream's length is the sum of the chunk lengths. |
| FillSpec.Copied | src/PaContext.cc:246-283 | The bytes a fill copies are the stream after its first k bytes, cut to at most n bytes. There are exactly n of them unless the stream runs dry. |
| FillSpec.Left | src/PaContext.cc:246-283 | What a fill leaves is the stream after the skipped and copied bytes. Copied bytes followed by what is left is the stream after skipping. |
| FillSpec.Padded | src/PaContext.cc:255-258 | The destination holds n bytes: the copied bytes, then zeros. When the stream does not run dry, it holds exactly the stream's bytes k to k+n. |
| FillSpec.ConsecutiveFills | src/PaContext.cc:246-283 | Two fills in a row copy and leave exactly what one fill of the combined size would. |
| FillSpec.SkipIsConsume | src/PaContext.cc:263-267 | Skipping k bytes and then filling n is the same as first consuming k bytes and then filling n without a skip. |
| FillSpec.SeriesIsOneFill | src/PaContext.cc:154-170 | A series of fills hands out the stream in push order with nothing lost or repeated: the same bytes as one fill of the total size. |
| FillSpec.DrainedSeries | src/PaContext.cc:154-170 | Once the fills request at least the whole stream, every byte has been handed out exactly once and the queue is empty. |
| FillSpec.ThreeChunkScenario | src/PaContext.cc:248-259 | Chunks of 100, 50 and 200 bytes, read by fills of 80, 80, 80, 80 and 30: all 350 bytes come out in order. The fifth fill does not run dry. Any later non-empty fill does. |
| FillSpec.AppendBehind | src/PaContext.cc:219-225 | Pushing bytes behind a fill the queue could already serve does not change what it copies. The new bytes queue up behind what it leaves. |
| Status.RecognizeDescribe | src/PaContext.cc:176-189 | Round trip: from the words checkStatus appends, the decoder recovers exactly which flags of the table were set, given that no entry's words is a prefix of another's. |
| Status.DescribeEmpty | src/PaContext.cc:176-189 | The appended words are empty exactly when none of the table's flags is set. |
| Status.StatusTableUnambiguous | src/PaContext.cc:180-189 | The five status words are non-empty, and no one of them is a prefix of another. |
| Status.DescribeFive | src/PaContext.cc:180-189 | Over a five-entry table, the description is the five tests in order. |
| Status.StatusText | src/PaContext.cc:176-195 | With no flag set the text is "nada", and only then. Otherwise it is "portAudio status - " followed by words from which the five flags can be read back. |
| Drift.DriftStep | src/PaContext.cc:37-51 | A skip happens exactly when the drift before this period exceeds three periods. The skip is then drift minus one period (more than two periods), and afterwards the drift is this period's actual time. Without a skip, the drift grows by actual minus expected time. Drift plus skip always equals old drift plus this period's lateness. |
| Drift.ReplayConserves | src/PaContext.cc:43-50 | Over any run of callbacks, the final drift plus all skips equals the initial drift plus the total lateness: no time is lost or invented. |
| Drift.ReplayBounded | src/PaContext.cc:43-50 | After any non-empty run of callbacks, whatever the starting drift, the drift is at most two of the longest expected periods plus the longest actual period. |
| Drift.CallbackClock.constructor | src/PaContext.cc:24-25 | Both globals start at 0. |
| Drift.CallbackClock.Tick | src/PaContext.cc:37-51 | One callback's bookkeeping returns the skip and sets the drift as DriftStep says. It records currentTime as the previous time. |
| Context.MulU32 | src/PaContext.cc:220 | uint32_t multiplication: the product, when it fits in 32 bits. |
| Context.BufferBytes | src/PaContext.cc:220 | frameCount*channelCount*sampleBits/8 in uint32_t is below 2^29. Without wrap-around and with whole-byte samples, it is frameCount frames of channelCount samples. |
| Context.WholeBytes | src/PaContext.cc:228 | With whole-byte samples and no overflow, dividing by 8 after multiplying gives whole frames. |
| Context.SamplesToSkip | src/PaContext.cc:231 | (uint32_t)(msToSkip*48) is the largest whole number of samples not above msToSkip*48. |
| Context.SkipBytes | src/PaContext.cc:232 | samplesToSkip*sampleBits/8*channelCount, without wrap-around and with whole-byte samples, is a whole number of frames. |
| Context.WholeFrames | src/PaContext.cc:232 | The skip formula and the frame formula agree on the frame size. |
| Context.SampleFormat | src/PaContext.cc:309-319 | Exactly the values 1, 8, 16, 24 and 32 select a format: paFloat32, paInt8, paInt16, paInt24, paInt32. Every other value is an error. Each selected format maps back to its value. |
| Context.SampleFormatOnto | src/PaContext.cc:309-319 | Every selectable format is selected by exactly one option value. |
| Context.PaContext.constructor | src/PaContext.cc:59-64 | Each queue is created empty, not quitting, with its direction's maxQueue, or 0 when the direction is absent. The latch starts empty. |
| Context.PaContext.FillBuffer | src/PaContext.cc:243-284 | Let U be the queue's bytes before the call. The returned count is the number of bytes copied. The first numBytes bytes of the buffer are the copied bytes of U after skipping bytesToSkip, zero-padded. The rest of the buffer is untouched. The queue keeps exactly the bytes after the skipped and copied ones. finished is set exactly when the queue ran dry, and then no chunk is current. The time stamp is 0. |
| Context.PaContext.FillPaBuffer | src/PaContext.cc:227-236 | Fills one output buffer of frameCount frames after skipping floor(msToSkip*48) samples, using the uint32_t byte formulas. Returns true exactly when the queue did not run dry. |
| Context.PaContext.ReadPaBuffer | src/PaContext.cc:219-225 | Pushes exactly one device buffer's bytes, frameCount*channelCount*sampleBits/8, as one chunk stamped inTimestamp, unless the input queue is quitting, in which case nothing changes. Leaves the quitting flag and the cursor alone. Always returns true. |
| Context.PaContext.PullInChunk | src/PaContext.cc:154-170 | Reading nothing of a non-empty request gives null memory. A short read gives exactly the bytes read. A full read gives the whole buffer. The queue keeps exactly the bytes after those read, and its quitting flag is unchanged. finished says whether the queue ran dry. The time stamp is 0. |
| Context.PaContext.CheckStatus | src/PaContext.cc:176-195 | Returns the status text of the flags. With flags set, it latches that text; with none, the latch is unchanged. |
| Context.PaContext.GetErrStr | src/PaContext.cc:197-206 | Always clears the latch. It hands out the latched text only when the direction closes on error, and otherwise keeps errStr. It returns whether the resulting errStr is non-empty. |
| Context.PaCallback | src/PaContext.cc:27-57 | Uses the input time stamp from the ADC time, or from stream time minus latency. Latches the status and runs the drift rule. Pushes the input buffer, unless input is absent or its queue is quitting, in which case the input queue is unchanged. Fills the first n bytes of the output buffer, skipping what the drift rule says, and leaves the rest of it untouched. Both quitting flags are unchanged. Returns paComplete exactly when input is absent and output is absent or ran dry. |
| Context.TransferBuffers | src/PaContext.cc:54-56 | Pushes the input buffer when input is present and its queue is not quitting; otherwise the input queue is unchanged. Fills the first n bytes of the output buffer when output is present, leaving the rest of it, and an absent direction's queue and buffer, alone. Both quitting flags are unchanged. Returns paComplete exactly when input is absent and output is absent or ran dry. |
| Context.StatusAppends | src/PaContext.cc:177-189 | The prefix and the five conditional appends of checkStatus spell out the status text. |
| Context.FillStep | src/PaContext.cc:248-281 | One pass of the loop keeps the loop's invariant. While skipping, it writes nothing to the buffer. When copying, the buffer's copied prefix grows with the next bytes of the stream. When it runs dry, it zeroes the rest and leaves the counters alone. Otherwise it makes progress. |
| Context.Advance | src/PaContext.cc:263-280 | With a chunk current, one skip or copy keeps the loop's invariant, takes no pending chunk, and consumes at least one byte whenever the current chunk had bytes left. |
| Context.Fetch | src/PaContext.cc:250-253 | A chunk is fetched only when none is left to read. Afterwards either no chunk is current and nothing is left, or the current chunk has bytes left, or a pending chunk was taken. |
| Context.SkipStep | src/PaContext.cc:263-267 | Skips min(bytesToSkip, curBytes - curOffset) bytes of the stream. |
| Context.CopyStep | src/PaContext.cc:268-279 | Copies min(numBytes, curBytes - curOffset) bytes of the stream to the buffer at bufOff and consumes them. |
| Context.CopyInto | src/PaContext.cc:270-272 | The memcpy extends the buffer's copied prefix by the next bytes of the stream. |
| Context.MemCopy | src/PaContext.cc:272 | memcpy writes src at the offset and nothing else. |
| Context.MemSet | src/PaContext.cc:257 | memset writes n zeros at the offset and nothing else. |
| Context.CopyAppends | src/PaContext.cc:270-272 | Writing the next stretch of the stream after the copied prefix extends that prefix. |
| Context.FillOutcome | src/PaContext.cc:246-283 | When the loop ends, its state gives the copied count, the padded buffer, the bytes left and whether the queue ran dry. |
| Context.CopiedWindow | src/PaContext.cc:248-283 | When the loop stops, the bytes it copied are exactly one fill's copy of the stream it started with, and the queue holds exactly what that fill leaves. It stopped with something still to skip or copy exactly when the stream was too short for the skip and the request. |

## Left out

- Chunks with null memory. `fillBuffer` tests `curBuf()` (src/PaContext.cc:250, :254), so in the source a current chunk whose buffer is null ends the fill as an empty queue would: it zero-fills, sets `finished` and stops, even with chunks pending. Every chunk in this model has memory, because whether a chunk, such as a zero-length one, has a null buffer is decided in `Chunks.h` and `Memory`, which are not part of this model.
- Blocking and threads: `waitNext` waiting for a chunk, `push` waiting on a full queue (`maxQueue`), `waitDone`, and the mutexes in the queue and around the latch. The model is sequential. `WaitNext` on an empty queue yields no chunk, which is what a wait that ends with `quit` yields.
- `pushOutChunk` (src/PaContext.cc:172-174) only forwards to the output queue's `push`, which `ChunkQueue.Chunks.Push` models.
- `quit` (src/PaContext.cc:208-217), its 20 ms sleep, and `Chunks.h`'s `quit` itself. The queue's quitting flag is state the model reads: `Push` drops chunks once it is set.
- The constructor's PortAudio and N-API work, `start`, `stop`, `getCurTime`, and `setParams` apart from its `sampleFormat` switch. These are calls into PortAudio and Node with no algorithm.
- Stream times: both `getCurTime` readings, the input latency and the ADC time are parameters of `Context.PaCallback`. Timing is `real`, not IEEE double.
- `printf` logging in `fillBuffer` and `getErrStr`.
- Context.PaContext.FillBuffer: the time stamp it returns is always 0. It never reads chunk time stamps, and neither does the model.
- Context.PaContext.FillPaBuffer: requires that msToSkip*48 is non-negative and below 2^32. Outside that range, the double-to-uint32_t conversion is undefined behaviour in C++.
- Context.PaCallback: requires the same range for the skip the drift rule computes, for the same reason. frameCount and statusFlags (unsigned long) are truncated modulo 2^32 where the source passes them as uint32_t. Input and output buffers are required to hold one device buffer, as PortAudio guarantees.
- Context.PaContext.ReadPaBuffer: requires that the device buffer holds the bytes it copies, as PortAudio guarantees.
- Context.PaContext.GetErrStr: requires that the direction's options exist. The source dereferences them unchecked.
- Context.PaContext.PullInChunk: `Memory::makeNew` and the shared pointers are modelled as fresh arrays and values. Sharing and lifetime are not modelled.
- The drift rule assumes 48 samples per millisecond whatever the sample rate. The model keeps that constant, as the source does.
