/**
 * PaContext: the bridge between the chunk queues and PortAudio's fixed-size
 * device buffers, and the callback that drives it once per buffer period.
 */
module Context {
  import opened Wrappers
  import opened ChunkQueue
  import opened FillSpec
  import Status
  import Drift

  const U32: int := 0x1_0000_0000

  type uint32 = x: int | 0 <= x < 0x1_0000_0000

  /** uint32_t multiplication: the product wraps around modulo 2^32. */
  function MulU32(a: uint32, b: uint32): (r: uint32)
    ensures a * b < U32 ==> r == a * b
  {
    var p := a * b;
    assert 0 <= p;
    p % U32
  }

  lemma MulGrows(x: nat, y: nat)
    requires y >= 1
    ensures x <= x * y
  {
    assert x * y == x * (y - 1) + x;
  }

  /**
   * The size of a device buffer, frameCount * channelCount * sampleBits / 8
   * evaluated in uint32_t. Without wrap-around and with whole-byte samples it
   * is frameCount frames of channelCount samples of sampleBits / 8 bytes.
   */
  function BufferBytes(frameCount: uint32, channelCount: uint32, sampleBits: uint32): (r: uint32)
    ensures r < U32 / 8
    ensures frameCount * channelCount * sampleBits < U32 && sampleBits % 8 == 0 ==>
      r == frameCount * (channelCount * (sampleBits / 8))
  {
    WholeBytes(frameCount, channelCount, sampleBits);
    MulU32(MulU32(frameCount, channelCount), sampleBits) / 8
  }

  lemma WholeBytes(frameCount: uint32, channelCount: uint32, sampleBits: uint32)
    ensures frameCount * channelCount * sampleBits < U32 && sampleBits % 8 == 0 ==>
      MulU32(MulU32(frameCount, channelCount), sampleBits) / 8 == frameCount * (channelCount * (sampleBits / 8))
  {
    if frameCount * channelCount * sampleBits < U32 && sampleBits % 8 == 0 {
      var b := sampleBits / 8;
      assert frameCount * channelCount * sampleBits == (frameCount * (channelCount * b)) * 8;
      if sampleBits > 0 {
        MulGrows(frameCount * channelCount, sampleBits);
      } else {
        assert MulU32(MulU32(frameCount, channelCount), sampleBits) == 0;
      }
    }
  }

  /** (uint32_t)(msToSkip * 48): the conversion truncates a nonnegative double toward zero. */
  function SamplesToSkip(msToSkip: real): (r: uint32)
    requires 0.0 <= msToSkip && msToSkip * 48.0 < U32 as real
    ensures r as real <= msToSkip * 48.0 < r as real + 1.0
  {
    (msToSkip * 48.0).Floor
  }

  /**
   * The bytes to skip, samplesToSkip * sampleBits / 8 * channelCount in
   * uint32_t: without wrap-around and with whole-byte samples, a whole number
   * of frames, with the same frame size as BufferBytes.
   */
  function SkipBytes(samplesToSkip: uint32, sampleBits: uint32, channelCount: uint32): (r: uint32)
    ensures samplesToSkip * sampleBits * channelCount < U32 && sampleBits % 8 == 0 ==>
      r == samplesToSkip * (channelCount * (sampleBits / 8))
  {
    WholeFrames(samplesToSkip, sampleBits, channelCount);
    MulU32(MulU32(samplesToSkip, sampleBits) / 8, channelCount)
  }

  lemma WholeFrames(samples: uint32, sampleBits: uint32, channelCount: uint32)
    ensures samples * sampleBits * channelCount < U32 && sampleBits % 8 == 0 ==>
      MulU32(MulU32(samples, sampleBits) / 8, channelCount) == samples * (channelCount * (sampleBits / 8))
  {
    if samples * sampleBits * channelCount < U32 && sampleBits % 8 == 0 {
      var b := sampleBits / 8;
      assert samples * sampleBits == (samples * b) * 8;
      assert samples * b * channelCount == samples * (channelCount * b);
      if channelCount > 0 {
        MulGrows(samples * sampleBits, channelCount);
        assert samples * sampleBits / 8 == samples * b;
        MulGrows(samples * b, 8);
        assert samples * b * channelCount <= samples * sampleBits * channelCount;
      } else {
        assert MulU32(MulU32(samples, sampleBits) / 8, channelCount) == 0;
      }
    }
  }

  /** The per-direction options the core reads (AudioOptions). */
  datatype AudioOptions = AudioOptions(channelCount: uint32, sampleBits: uint32, maxQueue: uint32, closeOnError: bool)

  /** The bytes of one device buffer of frameCount frames in this direction. */
  function FrameBytes(o: AudioOptions, frameCount: uint32): uint32
  {
    BufferBytes(frameCount, o.channelCount, o.sampleBits)
  }

  predicate SkipInRange(msToSkip: real)
  {
    0.0 <= msToSkip && msToSkip * 48.0 < U32 as real
  }

  /** The bytes of queued output skipped for msToSkip milliseconds. */
  function SkipBytesFor(o: AudioOptions, msToSkip: real): uint32
    requires SkipInRange(msToSkip)
  {
    SkipBytes(SamplesToSkip(msToSkip), o.sampleBits, o.channelCount)
  }

  /** PortAudio's sample formats paFloat32, paInt32, paInt24, paInt16 and paInt8. */
  const PaFloat32: bv32 := 0x1
  const PaInt32: bv32 := 0x2
  const PaInt24: bv32 := 0x4
  const PaInt16: bv32 := 0x8
  const PaInt8: bv32 := 0x10

  /** The sampleFormat option as setParams maps it; None is the "Invalid sampleFormat" error. */
  function SampleFormat(code: uint32): (r: Option<bv32>)
    ensures r.Some? <==> code in {1, 8, 16, 24, 32}
    ensures r.Some? ==> FormatCode(r.value) == code
  {
    match code
    case 1 => Some(PaFloat32)
    case 8 => Some(PaInt8)
    case 16 => Some(PaInt16)
    case 24 => Some(PaInt24)
    case 32 => Some(PaInt32)
    case _ => None
  }

  /** The option value that selects a PortAudio format (0 for none). */
  function FormatCode(f: bv32): uint32
  {
    if f == PaFloat32 then 1
    else if f == PaInt8 then 8
    else if f == PaInt16 then 16
    else if f == PaInt24 then 24
    else if f == PaInt32 then 32
    else 0
  }

  /** Every PortAudio format that setParams can select is selected by exactly one option value. */
  lemma SampleFormatOnto(f: bv32)
    requires FormatCode(f) != 0
    ensures SampleFormat(FormatCode(f)) == Some(f)
    ensures forall code: uint32 :: SampleFormat(code) == Some(f) ==> code == FormatCode(f)
  {
  }

  /** What pullInChunk hands back: memory that may be null, and a time stamp. */
  datatype PulledChunk = PulledChunk(mem: Option<seq<byte>>, timeStamp: real)

  class PaContext {
    const inOptions: Option<AudioOptions>
    const outOptions: Option<AudioOptions>
    const inChunks: Chunks
    const outChunks: Chunks
    /** The latched status condition (mErrStr). */
    var latchedStatus: string

    ghost predicate Valid()
      reads this, inChunks, outChunks
    {
      inChunks != outChunks && inChunks.Valid() && outChunks.Valid()
    }

    /** The queues are made with each direction's maxQueue, or 0 for an absent direction. */
    constructor (inOptions: Option<AudioOptions>, outOptions: Option<AudioOptions>)
      ensures Valid() && fresh(inChunks) && fresh(outChunks)
      ensures this.inOptions == inOptions && this.outOptions == outOptions
      ensures inChunks.maxQueue == (if inOptions.Some? then inOptions.value.maxQueue else 0)
      ensures outChunks.maxQueue == (if outOptions.Some? then outOptions.value.maxQueue else 0)
      ensures inChunks.Unconsumed() == [] && outChunks.Unconsumed() == []
      ensures !inChunks.quitting && !outChunks.quitting
      ensures latchedStatus == ""
    {
      this.inOptions := inOptions;
      this.outOptions := outOptions;
      inChunks := new Chunks(if inOptions.Some? then inOptions.value.maxQueue else 0);
      outChunks := new Chunks(if outOptions.Some? then outOptions.value.maxQueue else 0);
      latchedStatus := "";
    }

    predicate HasInput() { inOptions.Some? }

    predicate HasOutput() { outOptions.Some? }

    /**
     * fillBuffer: drop bytesToSkip bytes of the queue, then copy up to
     * numBytes bytes into buf, crossing chunk boundaries; when the queue
     * runs dry, zero the rest of the numBytes and set finished. Returns the
     * number of bytes copied. FillSpec.SkipIsConsume shows that the skip is
     * the same as consuming bytesToSkip bytes first; FillSpec.ConsecutiveFills
     * and FillSpec.SeriesIsOneFill say what a run of calls hands out.
     */
    method FillBuffer(buf: array<byte>, numBytes: uint32, chunks: Chunks, finishedIn: bool, bytesToSkip: uint32)
      returns (bufOff: uint32, timeStamp: real, finished: bool)
      requires chunks.Valid() && numBytes <= buf.Length
      modifies buf, chunks
      ensures chunks.Valid() && chunks.quitting == old(chunks.quitting)
      ensures bufOff == |Copied(old(chunks.Unconsumed()), bytesToSkip, numBytes)|
      ensures buf[..numBytes] == Padded(old(chunks.Unconsumed()), bytesToSkip, numBytes)
      ensures buf[numBytes..] == old(buf[numBytes..])
      ensures chunks.Unconsumed() == Left(old(chunks.Unconsumed()), bytesToSkip, numBytes)
      ensures finished == (finishedIn || RunsDry(old(chunks.Unconsumed()), bytesToSkip, numBytes))
      ensures RunsDry(old(chunks.Unconsumed()), bytesToSkip, numBytes) ==> !chunks.HasCurrent()
      ensures timeStamp == 0.0
    {
      ghost var u := chunks.Unconsumed();
      ghost var orig := buf[..];
      var off: nat := 0;
      var remaining: nat := numBytes;
      var skip: nat := bytesToSkip;
      // pos: how many bytes of u have been skipped or copied so far
      ghost var pos: nat := 0;
      // start: where the copied bytes begin in u, once skipping is over
      ghost var start: nat := 0;
      ghost var dry := false;
      timeStamp := 0.0;
      finished := finishedIn;
      while remaining > 0 || skip > 0
        invariant chunks.Valid() && chunks.quitting == old(chunks.quitting)
        invariant FillCounters(u, bytesToSkip, numBytes, skip, remaining, off, start, pos)
        invariant chunks.Unconsumed() == u[pos..]
        invariant buf[..] == u[start..pos] + orig[off..]
        invariant finished == finishedIn && !dry
        decreases |u| - pos, |chunks.pending|
      {
        var outOfData;
        outOfData, skip, remaining, off, start, pos := FillStep(buf, chunks, bytesToSkip, numBytes, skip, remaining, off, u, orig, start, pos);
        if outOfData {
          dry := true;
          finished := true;
          break;
        }
      }
      FillOutcome(u, bytesToSkip, numBytes, skip, off, remaining, start, pos, dry, buf[..], orig);
      bufOff := off;
    }

    /**
     * fillPaBuffer: fill one output device buffer of frameCount frames from the
     * output queue, first skipping msToSkip milliseconds of queued audio.
     * Returns false once the queue ran dry (!finished).
     */
    method FillPaBuffer(dstBuf: array<byte>, frameCount: uint32, msToSkip: real) returns (more: bool)
      requires Valid() && HasOutput() && SkipInRange(msToSkip)
      requires FrameBytes(outOptions.value, frameCount) <= dstBuf.Length
      modifies dstBuf, outChunks
      ensures Valid() && outChunks.quitting == old(outChunks.quitting)
      ensures var n := FrameBytes(outOptions.value, frameCount);
        var k := SkipBytesFor(outOptions.value, msToSkip);
        && dstBuf[..n] == Padded(old(outChunks.Unconsumed()), k, n)
        && dstBuf[n..] == old(dstBuf[n..])
        && outChunks.Unconsumed() == Left(old(outChunks.Unconsumed()), k, n)
        && more == !RunsDry(old(outChunks.Unconsumed()), k, n)
    {
      var o := outOptions.value;
      var bytesRemaining := BufferBytes(frameCount, o.channelCount, o.sampleBits);
      var samplesToSkip := SamplesToSkip(msToSkip);
      var bytesToSkip := SkipBytes(samplesToSkip, o.sampleBits, o.channelCount);
      var _, _, finished := FillBuffer(dstBuf, bytesRemaining, outChunks, false, bytesToSkip);
      more := !finished;
    }

    /**
     * readPaBuffer: copy one input device buffer of frameCount frames into a
     * new chunk stamped inTimestamp and push it on the input queue.
     */
    method ReadPaBuffer(srcBuf: seq<byte>, frameCount: uint32, inTimestamp: real) returns (ok: bool)
      requires Valid() && HasInput()
      requires FrameBytes(inOptions.value, frameCount) <= |srcBuf|
      modifies inChunks
      ensures Valid() && ok
      ensures inChunks.quitting == old(inChunks.quitting)
      ensures inChunks.current == old(inChunks.current) && inChunks.offset == old(inChunks.offset)
      ensures var c := Chunk(srcBuf[..FrameBytes(inOptions.value, frameCount)], inTimestamp);
        && inChunks.pending == (if old(inChunks.quitting) then old(inChunks.pending) else old(inChunks.pending) + [c])
        && inChunks.Unconsumed() == old(inChunks.Unconsumed()) + (if old(inChunks.quitting) then [] else c.data)
    {
      var o := inOptions.value;
      var bytesAvailable := BufferBytes(frameCount, o.channelCount, o.sampleBits);
      var chunk := new byte[bytesAvailable];
      MemCopy(chunk, 0, srcBuf[..bytesAvailable]);
      assert chunk[..] == srcBuf[..bytesAvailable];
      inChunks.Push(Chunk(chunk[..], inTimestamp));
      ok := true;
    }

    /**
     * pullInChunk: read up to numBytes bytes of the input queue. A short read
     * is trimmed to the bytes read, and a read of nothing gives null memory.
     */
    method PullInChunk(numBytes: uint32) returns (chunk: PulledChunk, finished: bool)
      requires Valid()
      modifies inChunks
      ensures Valid() && inChunks.quitting == old(inChunks.quitting)
      ensures var u := old(inChunks.Unconsumed());
        && chunk.mem == (if numBytes > 0 && Copied(u, 0, numBytes) == [] then None else Some(Copied(u, 0, numBytes)))
        && chunk.timeStamp == 0.0
        && inChunks.Unconsumed() == Left(u, 0, numBytes)
        && finished == RunsDry(u, 0, numBytes)
    {
      var result := new byte[numBytes];
      ghost var u := inChunks.Unconsumed();
      var bytesRead, timeStamp, fin := FillBuffer(result, numBytes, inChunks, false, 0);
      finished := fin;
      ghost var copied := Copied(u, 0, numBytes);
      assert result[..] == result[..numBytes] == copied + Zeros(numBytes - |copied|);
      assert result[..bytesRead] == copied;
      var mem: Option<seq<byte>> := Some(result[..]);
      if bytesRead != numBytes {
        if bytesRead == 0 {
          mem := None;
        } else {
          var trimResult := new byte[bytesRead];
          MemCopy(trimResult, 0, result[..bytesRead]);
          assert trimResult[..] == copied;
          mem := Some(trimResult[..]);
        }
      }
      chunk := PulledChunk(mem, timeStamp);
    }

    /**
     * checkStatus: "nada" when no flag is set; otherwise the prefix followed by
     * the words of each set flag in PortAudio's order, which is also latched.
     */
    method CheckStatus(statusFlags: bv32) returns (r: string)
      modifies this
      ensures r == Status.StatusText(statusFlags)
      ensures latchedStatus == (if statusFlags == 0 then old(latchedStatus) else r)
    {
      if statusFlags != 0 {
        var err := Status.Prefix;
        if statusFlags & Status.InputUnderflow != 0 {
          err := err + Status.InputUnderflowText;
        }
        ghost var e0 := err;
        if statusFlags & Status.InputOverflow != 0 {
          err := err + Status.InputOverflowText;
        }
        ghost var e1 := err;
        if statusFlags & Status.OutputUnderflow != 0 {
          err := err + Status.OutputUnderflowText;
        }
        ghost var e2 := err;
        if statusFlags & Status.OutputOverflow != 0 {
          err := err + Status.OutputOverflowText;
        }
        ghost var e3 := err;
        if statusFlags & Status.PrimingOutput != 0 {
          err := err + Status.PrimingOutputText;
        }
        StatusAppends(statusFlags, e0, e1, e2, e3, err);
        latchedStatus := err;
        r := err;
      } else {
        r := Status.NoStatus;
      }
    }

    /**
     * getErrStr: take the latched condition, clearing the latch. It replaces
     * errStr only when this direction closes on error; the result says
     * whether errStr is then non-empty.
     */
    method GetErrStr(errStr: string, isInput: bool) returns (propagate: bool, errStrOut: string)
      requires if isInput then HasInput() else HasOutput()
      modifies this
      ensures latchedStatus == ""
      ensures var o := if isInput then inOptions.value else outOptions.value;
        errStrOut == (if o.closeOnError then old(latchedStatus) else errStr)
      ensures propagate <==> errStrOut != ""
    {
      var options := if isInput then inOptions.value else outOptions.value;
      errStrOut := errStr;
      if options.closeOnError {
        errStrOut := latchedStatus;
      }
      latchedStatus := "";
      propagate := errStrOut != "";
    }
  }

  /** paContinue and paComplete. */
  datatype RetCode = Continue | Complete

  /**
   * The callback's bookkeeping for one buffer period: latch the status flags,
   * run the drift rule on the clock, push the input buffer, fill the output
   * buffer (skipping what the drift rule says), and complete only when both
   * directions are complete; an absent direction counts as complete.
   * Stream times are inputs: entryTime and currentTime are the two readings of
   * the stream clock, inLatency the input latency. frameCount and statusFlags
   * arrive as unsigned long and are truncated to 32 bits where passed on.
   */
  method PaCallback(ctx: PaContext, clock: Drift.CallbackClock, input: seq<byte>, output: array<byte>,
                    frameCount: nat, inputBufferAdcTime: real, entryTime: real, inLatency: real,
                    statusFlags: nat, currentTime: real)
    returns (ret: RetCode)
    requires ctx.Valid()
    requires ctx.HasInput() ==> FrameBytes(ctx.inOptions.value, frameCount % U32) <= |input|
    requires ctx.HasOutput() ==> FrameBytes(ctx.outOptions.value, frameCount % U32) <= output.Length
    requires ctx.HasOutput() ==> SkipInRange(clock.Next(currentTime, frameCount).msToSkip)
    modifies ctx, ctx.inChunks, ctx.outChunks, output, clock
    ensures ctx.Valid()
    ensures ctx.inChunks.quitting == old(ctx.inChunks.quitting) && ctx.outChunks.quitting == old(ctx.outChunks.quitting)
    ensures Drift.DriftOutcome(old(clock.Next(currentTime, frameCount)).msToSkip, clock.timeDeltaMs)
      == old(clock.Next(currentTime, frameCount))
    ensures clock.prevTime == currentTime
    ensures var flags := (statusFlags % U32) as bv32;
      ctx.latchedStatus == (if flags == 0 then old(ctx.latchedStatus) else Status.StatusText(flags))
    ensures var inTimestamp := if inputBufferAdcTime > 0.0 then inputBufferAdcTime else entryTime - inLatency;
      ctx.HasInput() && !old(ctx.inChunks.quitting) ==>
        ctx.inChunks.Unconsumed()
          == old(ctx.inChunks.Unconsumed()) + input[..FrameBytes(ctx.inOptions.value, frameCount % U32)]
        && ctx.inChunks.pending
          == old(ctx.inChunks.pending) + [Chunk(input[..FrameBytes(ctx.inOptions.value, frameCount % U32)], inTimestamp)]
    ensures !ctx.HasInput() || old(ctx.inChunks.quitting) ==>
      ctx.inChunks.Unconsumed() == old(ctx.inChunks.Unconsumed()) && ctx.inChunks.pending == old(ctx.inChunks.pending)
    ensures ctx.HasOutput() ==>
      var o := ctx.outOptions.value;
      var n := FrameBytes(o, frameCount % U32);
      var k := SkipBytesFor(o, old(clock.Next(currentTime, frameCount)).msToSkip);
      && output[..n] == Padded(old(ctx.outChunks.Unconsumed()), k, n)
      && output[n..] == old(output[n..])
      && ctx.outChunks.Unconsumed() == Left(old(ctx.outChunks.Unconsumed()), k, n)
      && (ret == Complete <==> !ctx.HasInput() && RunsDry(old(ctx.outChunks.Unconsumed()), k, n))
    ensures !ctx.HasOutput() ==>
      output[..] == old(output[..]) && ctx.outChunks.Unconsumed() == old(ctx.outChunks.Unconsumed())
      && (ret == Complete <==> !ctx.HasInput())
  {
    var inTimestamp := if inputBufferAdcTime > 0.0 then inputBufferAdcTime else entryTime - inLatency;
    ghost var next := clock.Next(currentTime, frameCount);
    var _ := ctx.CheckStatus((statusFlags % U32) as bv32);
    assert ctx.Valid() && clock.Next(currentTime, frameCount) == next;
    var msToSkip := clock.Tick(currentTime, frameCount);
    assert msToSkip == next.msToSkip;
    ret := TransferBuffers(ctx, input, output, frameCount % U32, inTimestamp, msToSkip);
  }

  /**
   * The second half of the callback: push the input buffer, fill the output
   * buffer, and combine the two return codes.
   */
  method TransferBuffers(ctx: PaContext, input: seq<byte>, output: array<byte>,
                         frames: uint32, inTimestamp: real, msToSkip: real)
    returns (ret: RetCode)
    requires ctx.Valid()
    requires ctx.HasInput() ==> FrameBytes(ctx.inOptions.value, frames) <= |input|
    requires ctx.HasOutput() ==> FrameBytes(ctx.outOptions.value, frames) <= output.Length
    requires ctx.HasOutput() ==> SkipInRange(msToSkip)
    modifies ctx.inChunks, ctx.outChunks, output
    ensures ctx.Valid()
    ensures ctx.inChunks.quitting == old(ctx.inChunks.quitting) && ctx.outChunks.quitting == old(ctx.outChunks.quitting)
    ensures ctx.HasInput() && !old(ctx.inChunks.quitting) ==>
      var c := Chunk(input[..FrameBytes(ctx.inOptions.value, frames)], inTimestamp);
      ctx.inChunks.Unconsumed() == old(ctx.inChunks.Unconsumed()) + c.data
      && ctx.inChunks.pending == old(ctx.inChunks.pending) + [c]
    ensures !ctx.HasInput() || old(ctx.inChunks.quitting) ==>
      ctx.inChunks.Unconsumed() == old(ctx.inChunks.Unconsumed()) && ctx.inChunks.pending == old(ctx.inChunks.pending)
    ensures ctx.HasOutput() ==>
      var o := ctx.outOptions.value;
      var n := FrameBytes(o, frames);
      var k := SkipBytesFor(o, msToSkip);
      && output[..n] == Padded(old(ctx.outChunks.Unconsumed()), k, n)
      && output[n..] == old(output[n..])
      && ctx.outChunks.Unconsumed() == Left(old(ctx.outChunks.Unconsumed()), k, n)
      && (ret == Complete <==> !ctx.HasInput() && RunsDry(old(ctx.outChunks.Unconsumed()), k, n))
    ensures !ctx.HasOutput() ==>
      output[..] == old(output[..]) && ctx.outChunks.Unconsumed() == old(ctx.outChunks.Unconsumed())
      && (ret == Complete <==> !ctx.HasInput())
  {
    ghost var outBefore := ctx.outChunks.Unconsumed();
    var inMore := false;
    if ctx.HasInput() {
      inMore := ctx.ReadPaBuffer(input, frames, inTimestamp);
    }
    assert ctx.outChunks.Unconsumed() == outBefore;
    var outMore := false;
    if ctx.HasOutput() {
      outMore := ctx.FillPaBuffer(output, frames, msToSkip);
    }
    ret := if !inMore && !outMore then Complete else Continue;
  }

  /** The five appends of checkStatus spell out the status text. */
  lemma StatusAppends(flags: bv32, e0: string, e1: string, e2: string, e3: string, e4: string)
    requires flags != 0
    requires e0 == if flags & Status.InputUnderflow != 0 then Status.Prefix + Status.InputUnderflowText else Status.Prefix
    requires e1 == if flags & Status.InputOverflow != 0 then e0 + Status.InputOverflowText else e0
    requires e2 == if flags & Status.OutputUnderflow != 0 then e1 + Status.OutputUnderflowText else e1
    requires e3 == if flags & Status.OutputOverflow != 0 then e2 + Status.OutputOverflowText else e2
    requires e4 == if flags & Status.PrimingOutput != 0 then e3 + Status.PrimingOutputText else e3
    ensures e4 == Status.StatusText(flags)
  {
    var t := Status.StatusTable;
    assert t[0] == (Status.InputUnderflow, Status.InputUnderflowText);
    assert t[1] == (Status.InputOverflow, Status.InputOverflowText);
    assert t[2] == (Status.OutputUnderflow, Status.OutputUnderflowText);
    assert t[3] == (Status.OutputOverflow, Status.OutputOverflowText);
    assert t[4] == (Status.PrimingOutput, Status.PrimingOutputText);
    Status.DescribeFive(flags, t);
    var w0, w1, w2, w3, w4 := Status.Word(flags, t[0]), Status.Word(flags, t[1]), Status.Word(flags, t[2]),
                              Status.Word(flags, t[3]), Status.Word(flags, t[4]);
    assert e0 == Status.Prefix + w0;
    assert e1 == e0 + w1;
    assert e2 == e1 + w2;
    assert e3 == e2 + w3;
    assert e4 == e3 + w4;
    Reassociate(Status.Prefix, w0, w1, w2, w3, w4);
  }

  lemma Reassociate(p: string, a: string, b: string, c: string, d: string, e: string)
    ensures p + a + b + c + d + e == p + (a + (b + (c + (d + e))))
  {
  }

  /** memcpy(buf + at, src, |src|) */
  method MemCopy(buf: array<byte>, at: nat, src: seq<byte>)
    requires at + |src| <= buf.Length
    modifies buf
    ensures buf[..] == old(buf[..])[..at] + src + old(buf[..])[at + |src|..]
  {
    forall i | 0 <= i < |src| {
      buf[at + i] := src[i];
    }
  }

  /** memset(buf + at, 0, n) */
  method MemSet(buf: array<byte>, at: nat, n: nat)
    requires at + n <= buf.Length
    modifies buf
    ensures buf[..] == old(buf[..])[..at] + Zeros(n) + old(buf[..])[at + n..]
  {
    forall i | at <= i < at + n {
      buf[i] := 0;
    }
  }

  /**
   * The counters of fillBuffer's loop over the stream u it started with:
   * off bytes copied and remaining still wanted out of n; skip of k bytes
   * still to skip; pos bytes of u skipped or copied, the copied ones starting
   * at start. Copying begins only once skipping is over.
   */
  ghost predicate FillCounters(u: seq<byte>, k: nat, n: nat, skip: nat, remaining: nat, off: nat, start: nat, pos: nat)
  {
    && off + remaining == n && skip <= k
    && pos == k - skip + off <= |u| && start + off == pos
    && (skip > 0 ==> off == 0)
  }

  /**
   * One pass of fillBuffer's loop: fetch a chunk when needed (zeroing the rest
   * of the request and reporting dry when none comes), then skip or copy as
   * much of the current chunk as the request allows.
   */
  method FillStep(buf: array<byte>, chunks: Chunks, k: nat, n: nat, skip: nat, remaining: nat, off: nat,
                  ghost u: seq<byte>, ghost orig: seq<byte>, ghost start: nat, ghost pos: nat)
    returns (dry: bool, skip': nat, remaining': nat, off': nat, ghost start': nat, ghost pos': nat)
    requires remaining > 0 || skip > 0
    requires n <= buf.Length == |orig|
    requires chunks.Valid()
    requires FillCounters(u, k, n, skip, remaining, off, start, pos)
    requires chunks.Unconsumed() == u[pos..]
    requires buf[..] == u[start..pos] + orig[off..]
    modifies buf, chunks
    ensures chunks.Valid() && chunks.quitting == old(chunks.quitting)
    ensures FillCounters(u, k, n, skip', remaining', off', start', pos')
    ensures chunks.Unconsumed() == u[pos'..]
    ensures !dry ==> buf[..] == u[start'..pos'] + orig[off'..]
    ensures dry ==> !chunks.HasCurrent()
    ensures dry ==> skip' == skip && remaining' == remaining && off' == off && pos' == pos && start' == start && pos == |u|
    ensures dry ==> buf[..] == (u[start..pos] + orig[off..])[..off] + Zeros(remaining) + (u[start..pos] + orig[off..])[n..]
    ensures !dry ==> pos < pos' || (pos == pos' && |chunks.pending| < old(|chunks.pending|))
  {
    dry, skip', remaining', off', start', pos' := false, skip, remaining, off, start, pos;
    Fetch(chunks);
    if !chunks.HasCurrent() {
      MemSet(buf, off, remaining);
      dry := true;
      return;
    }
    skip', remaining', off', start', pos' := Advance(buf, chunks, k, n, skip, remaining, off, u, orig, start, pos);
  }

  /**
   * The body of fillBuffer's loop once a chunk is current: skip while there
   * is something to skip, otherwise copy; either way as much of the current
   * chunk as the request allows.
   */
  method Advance(buf: array<byte>, chunks: Chunks, k: nat, n: nat, skip: nat, remaining: nat, off: nat,
                 ghost u: seq<byte>, ghost orig: seq<byte>, ghost start: nat, ghost pos: nat)
    returns (skip': nat, remaining': nat, off': nat, ghost start': nat, ghost pos': nat)
    requires remaining > 0 || skip > 0
    requires n <= buf.Length == |orig|
    requires chunks.Valid() && chunks.HasCurrent()
    requires FillCounters(u, k, n, skip, remaining, off, start, pos)
    requires chunks.Unconsumed() == u[pos..]
    requires buf[..] == u[start..pos] + orig[off..]
    modifies buf, chunks
    ensures chunks.Valid() && chunks.quitting == old(chunks.quitting) && chunks.pending == old(chunks.pending)
    ensures FillCounters(u, k, n, skip', remaining', off', start', pos')
    ensures chunks.Unconsumed() == u[pos'..]
    ensures buf[..] == u[start'..pos'] + orig[off'..]
    ensures pos <= pos' && (old(chunks.offset < chunks.CurBytes()) ==> pos < pos')
  {
    skip', remaining', off', start', pos' := skip, remaining, off, start, pos;
    if skip > 0 {
      assert buf[..] == orig by { assert u[start..pos] == []; }
      var step := SkipStep(chunks, skip, u, pos);
      skip' := skip - step;
      pos' := pos + step;
      start' := pos';
      assert u[start'..pos'] + orig[off..] == orig by { assert u[start'..pos'] == []; }
    } else {
      var step := CopyStep(buf, off, remaining, chunks, u, orig, start, pos);
      off' := off + step;
      remaining' := remaining - step;
      pos' := pos + step;
    }
  }

  /** The head of fillBuffer's loop: fetch the next chunk when the current one is absent or used up. */
  method Fetch(chunks: Chunks)
    requires chunks.Valid()
    modifies chunks
    ensures chunks.Valid() && chunks.quitting == old(chunks.quitting)
    ensures chunks.Unconsumed() == old(chunks.Unconsumed())
    ensures !chunks.HasCurrent() ==> chunks.Unconsumed() == []
    ensures chunks.HasCurrent() ==>
      |chunks.pending| < old(|chunks.pending|) || (chunks.offset < chunks.CurBytes() && chunks.pending == old(chunks.pending))
  {
    if !chunks.HasCurrent() || chunks.offset == chunks.CurBytes() {
      chunks.WaitNext();
    }
  }

  /** Skipping in fillBuffer: consume up to skip bytes of the current chunk. */
  method SkipStep(chunks: Chunks, skip: nat, ghost u: seq<byte>, ghost pos: nat) returns (step: nat)
    requires chunks.Valid() && chunks.HasCurrent() && pos <= |u| && chunks.Unconsumed() == u[pos..]
    modifies chunks
    ensures step == Min(skip, old(chunks.CurBytes() - chunks.offset)) && pos + step <= |u|
    ensures chunks.Valid() && chunks.pending == old(chunks.pending) && chunks.quitting == old(chunks.quitting)
    ensures chunks.Unconsumed() == u[pos + step..]
  {
    step := Min(skip, chunks.CurBytes() - chunks.offset);
    ghost var was := chunks.Unconsumed();
    chunks.IncOffset(step);
    assert chunks.Unconsumed() == was[step..];
  }

  /** Copying in fillBuffer: memcpy up to remaining bytes of the current chunk to buf + off. */
  method CopyStep(buf: array<byte>, off: nat, remaining: nat, chunks: Chunks,
                  ghost u: seq<byte>, ghost orig: seq<byte>, ghost start: nat, ghost pos: nat) returns (step: nat)
    requires chunks.Valid() && chunks.HasCurrent() && pos <= |u| && chunks.Unconsumed() == u[pos..]
    requires start + off == pos && off + remaining <= buf.Length == |orig|
    requires buf[..] == u[start..pos] + orig[off..]
    modifies buf, chunks
    ensures step == Min(remaining, old(chunks.CurBytes() - chunks.offset)) && pos + step <= |u|
    ensures chunks.Valid() && chunks.pending == old(chunks.pending) && chunks.quitting == old(chunks.quitting)
    ensures chunks.Unconsumed() == u[pos + step..]
    ensures buf[..] == u[start..pos + step] + orig[off + step..]
  {
    step := Min(remaining, chunks.CurBytes() - chunks.offset);
    var src := chunks.current.value.data[chunks.offset..chunks.offset + step];
    ghost var was := chunks.Unconsumed();
    assert src == was[..step];
    CopyInto(buf, off, src, u, orig, start, pos);
    chunks.IncOffset(step);
    assert chunks.Unconsumed() == was[step..];
  }

  /** memcpy of the next bytes of the stream: the destination holds one more stretch of it. */
  method CopyInto(buf: array<byte>, off: nat, src: seq<byte>, ghost u: seq<byte>, ghost orig: seq<byte>, ghost start: nat, ghost pos: nat)
    requires start + off == pos && pos + |src| <= |u| && off + |src| <= buf.Length == |orig|
    requires src == u[pos..pos + |src|]
    requires buf[..] == u[start..pos] + orig[off..]
    modifies buf
    ensures buf[..] == u[start..pos + |src|] + orig[off + |src|..]
  {
    ghost var d := buf[..];
    MemCopy(buf, off, src);
    assert buf[..] == d[..off] + src + d[off + |src|..];
    CopyAppends(u, orig, start, off, pos, |src|);
  }

  /** A copy of the next step bytes of the stream extends the copied prefix of the destination. */
  lemma CopyAppends(u: seq<byte>, orig: seq<byte>, start: nat, off: nat, pos: nat, step: nat)
    requires start + off == pos && pos + step <= |u| && off + step <= |orig|
    ensures var d := u[start..pos] + orig[off..];
      d[..off] + u[pos..pos + step] + d[off + step..] == u[start..pos + step] + orig[off + step..]
  {
    var d := u[start..pos] + orig[off..];
    assert d[..off] == u[start..pos];
    assert d[off + step..] == orig[off + step..];
    assert u[start..pos + step] == u[start..pos] + u[pos..pos + step];
  }

  /** How the loop of fillBuffer ends: the queue covered the request, or it ran dry. */
  lemma FillOutcome(u: seq<byte>, k: nat, n: nat, skip: nat, off: nat, remaining: nat, start: nat, pos: nat, dry: bool,
                    b: seq<byte>, orig: seq<byte>)
    requires FillCounters(u, k, n, skip, remaining, off, start, pos) && n <= |orig|
    requires !dry ==> remaining == 0 && skip == 0 && b == u[start..pos] + orig[off..]
    requires dry ==> pos == |u| && (remaining > 0 || skip > 0)
    requires dry ==> b == (u[start..pos] + orig[off..])[..off] + Zeros(remaining) + (u[start..pos] + orig[off..])[n..]
    ensures off == |Copied(u, k, n)|
    ensures b[..n] == Padded(u, k, n)
    ensures b[n..] == orig[n..]
    ensures u[pos..] == Left(u, k, n)
    ensures dry == RunsDry(u, k, n)
  {
    CopiedWindow(u, k, n, skip, remaining, off, start, pos);
    var d := u[start..pos] + orig[off..];
    assert d[..off] == u[start..pos];
    assert d[n..] == orig[n..];
    if !dry {
      assert b[..n] == d[..off];
    } else {
      assert b[..n] == d[..off] + Zeros(remaining);
    }
  }

  /** When the loop ends, the bytes of u it passed over are the skip and the copy of one fill. */
  lemma CopiedWindow(u: seq<byte>, k: nat, n: nat, skip: nat, remaining: nat, off: nat, start: nat, pos: nat)
    requires FillCounters(u, k, n, skip, remaining, off, start, pos)
    requires (remaining == 0 && skip == 0) || pos == |u|
    ensures Copied(u, k, n) == u[start..pos] && |Copied(u, k, n)| == off
    ensures u[pos..] == Left(u, k, n)
    ensures RunsDry(u, k, n) <==> remaining > 0 || skip > 0
  {
    if skip > 0 {
      assert start == pos == |u| < k;
    } else {
      assert start == k && pos == k + off;
    }
  }
}
