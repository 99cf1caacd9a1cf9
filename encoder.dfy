/** The encode driver of src/index.ts: the one-time readiness gate of the
    engine module, the option merge, the per-chunk copy of channel samples
    into the engine's heap, the drain of the encoded bytes, and
    `encodeAudioBuffer` with its chunk loop and its `finally` cleanup.

    The engine (the WASM build of c-source/middle-layer.c) is a mock object
    that records every call made on it in `trace`. Any one of its calls may
    throw: `failAt` names the position in the trace of the call that throws. */
module Encoder {
  import opened Wrappers
  import opened Memory
  import opened Chunking
  import TagUtil

  /** A float32 sample. Samples are only ever copied, never inspected. */
  type Sample = real

  // ---------------------------------------------------------------------
  // Readiness gate: `_waitForModuleInit` (src/index.ts:7-16)
  // ---------------------------------------------------------------------

  /** `Module._isInitialized`: absent when the build lacks its pre-run hook. */
  datatype InitFlag = Unset | Flag(initialized: bool)

  /** The module flag, whether the shared `waitForModuleInitPromise` exists,
      and how many promises have been created so far. */
  datatype GateState = GateState(isInitialized: InitFlag, promiseExists: bool, promisesCreated: nat)

  /** How a call of `_waitForModuleInit` ends. */
  datatype GateResult =
    | AlreadyInitialized   // returns at once
    | ImportError          // throws 'Unexpected behavior from middle-layer.js import.'
    | ReusedPromise        // awaits the promise an earlier caller created
    | CreatedPromise       // creates the promise and returns it

  /** One call of the gate. The caller that creates the promise returns it;
      awaiting it returns at once, because the executor runs
      `Module.onRuntimeInitialized = resolve()`, which calls `resolve`
      straight away (the model has no runtime callback, so a caller that gets
      past the gate goes on at once). */
  function GateStep(s: GateState): (GateState, GateResult) {
    if s.isInitialized == Flag(true) then (s, AlreadyInitialized)
    else if s.isInitialized == Unset then (s, ImportError)
    else if s.promiseExists then (s, ReusedPromise)
    else (s.(promiseExists := true, promisesCreated := s.promisesCreated + 1), CreatedPromise)
  }

  /** `k` calls of the gate in a row, with the results in call order. */
  function GateCalls(s: GateState, k: nat): (r: (GateState, seq<GateResult>))
    ensures |r.1| == k
    decreases k
  {
    if k == 0 then (s, [])
    else
      var (mid, first) := GateStep(s);
      var (t, rest) := GateCalls(mid, k - 1);
      (t, [first] + rest)
  }

  /** Single flight: however many callers come, at most one promise is ever
      created; none when the module is initialized, when the flag is
      undefined (every call throws) or when a promise already exists; the
      flag and an existing promise are never changed. */
  lemma {:induction false} GateSingleFlight(s: GateState, k: nat)
    ensures var (t, results) := GateCalls(s, k);
      && t.promisesCreated <= s.promisesCreated + 1
      && t.isInitialized == s.isInitialized
      && (s.promiseExists ==> t.promiseExists)
      && (s.isInitialized != Flag(false) || s.promiseExists ==> t.promisesCreated == s.promisesCreated)
      && (s.isInitialized == Unset ==> forall i :: 0 <= i < k ==> results[i] == ImportError)
      && (s.isInitialized == Flag(true) ==> forall i :: 0 <= i < k ==> results[i] == AlreadyInitialized)
    decreases k
  {
    if k > 0 {
      var (mid, first) := GateStep(s);
      GateSingleFlight(mid, k - 1);
      var (t, rest) := GateCalls(mid, k - 1);
      assert GateCalls(s, k) == (t, [first] + rest);
      if s.isInitialized == Flag(false) && !s.promiseExists {
        assert mid.promiseExists;
      }
    }
  }

  /** Early callers on a module that is not yet initialized: the first one
      creates the promise, every later one reuses it, and exactly one promise
      exists afterwards. */
  lemma {:induction false} GateEarlyCallersShare(s: GateState, k: nat)
    requires s.isInitialized == Flag(false) && !s.promiseExists && k >= 1
    ensures var (t, results) := GateCalls(s, k);
      && results[0] == CreatedPromise
      && (forall i :: 1 <= i < k ==> results[i] == ReusedPromise)
      && t.promisesCreated == s.promisesCreated + 1
  {
    var (mid, first) := GateStep(s);
    ReusersReuse(mid, k - 1);
    GateSingleFlight(mid, k - 1);
    var (t, rest) := GateCalls(mid, k - 1);
    assert GateCalls(s, k) == (t, [first] + rest);
  }

  lemma {:induction false} ReusersReuse(s: GateState, k: nat)
    requires s.isInitialized == Flag(false) && s.promiseExists
    ensures forall i :: 0 <= i < k ==> GateCalls(s, k).1[i] == ReusedPromise
  {
    if k > 0 {
      ReusersReuse(s, k - 1);
      var (t, rest) := GateCalls(s, k - 1);
      assert GateCalls(s, k) == (t, [ReusedPromise] + rest);
    }
  }

  /** The module-level state the gate reads and writes. */
  class ModuleGate {
    var isInitialized: InitFlag
    var promiseExists: bool
    var promisesCreated: nat

    constructor (flag: InitFlag)
      ensures State() == GateState(flag, false, 0)
    {
      isInitialized, promiseExists, promisesCreated := flag, false, 0;
    }

    function State(): GateState
      reads this
    {
      GateState(isInitialized, promiseExists, promisesCreated)
    }

    /** `_waitForModuleInit` */
    method WaitForModuleInit() returns (r: GateResult)
      modifies this
      ensures (State(), r) == GateStep(old(State()))
    {
      if isInitialized == Flag(true) {
        return AlreadyInitialized;
      }
      if isInitialized == Unset {
        return ImportError;
      }
      if promiseExists {
        return ReusedPromise;
      }
      promiseExists := true;
      promisesCreated := promisesCreated + 1;
      return CreatedPromise;
    }
  }

  /** Two callers that arrive before the module is initialized share one
      promise. */
  method TwoEarlyCallers(gate: ModuleGate) returns (first: GateResult, second: GateResult)
    requires gate.State() == GateState(Flag(false), false, 0)
    modifies gate
    ensures first == CreatedPromise && second == ReusedPromise
    ensures gate.promisesCreated == 1
  {
    first := gate.WaitForModuleInit();
    second := gate.WaitForModuleInit();
  }

  // ---------------------------------------------------------------------
  // Options: `DEFAULT_ENCODE_OPTIONS` and the spread merge (src/index.ts:65-77)
  // ---------------------------------------------------------------------

  /** A property of an options object: left out, present but `undefined`,
      or set to a value. */
  datatype Field<T> = Absent | Undefined | Given(value: T)

  /** The quality `_encoder_init` is passed: `None` when it is `undefined`
      (which the binding turns into NaN). */
  type Quality = Option<real>

  /** The merged options; a `None` field is `undefined`. */
  datatype EncodeOptions = EncodeOptions(quality: Quality, tags: Option<seq<TagUtil.EncodeTag>>)

  /** The options a caller passes (`quality?: number`, `tags?: EncodeTag[]`). */
  datatype EncodeOptionsArg = EncodeOptionsArg(quality: Field<real>, tags: Field<seq<TagUtil.EncodeTag>>)

  const DEFAULT_ENCODE_OPTIONS: EncodeOptions := EncodeOptions(Some(0.5), Some([]))

  /** One property of an object spread over the defaults: a property left
      out keeps the default, one present overwrites it, even with
      `undefined`. */
  function Spread<T>(f: Field<T>, default: Option<T>): Option<T> {
    match f
    case Absent => default
    case Undefined => None
    case Given(v) => Some(v)
  }

  /** `{...DEFAULT_ENCODE_OPTIONS, ...encodeOptions}`, where a missing
      argument is the default object itself. */
  function MergeOptions(arg: Option<EncodeOptionsArg>): (r: EncodeOptions)
    ensures arg.None? ==> r == DEFAULT_ENCODE_OPTIONS
    ensures arg.Some? ==> match arg.value.quality
      case Absent => r.quality == Some(0.5)
      case Undefined => r.quality == None
      case Given(q) => r.quality == Some(q)
    ensures arg.Some? ==> match arg.value.tags
      case Absent => r.tags == Some([])
      case Undefined => r.tags == None
      case Given(t) => r.tags == Some(t)
  {
    match arg
    case None => DEFAULT_ENCODE_OPTIONS
    case Some(o) =>
      EncodeOptions(Spread(o.quality, DEFAULT_ENCODE_OPTIONS.quality), Spread(o.tags, DEFAULT_ENCODE_OPTIONS.tags))
  }

  // ---------------------------------------------------------------------
  // The engine and its calls
  // ---------------------------------------------------------------------

  /** A `pEncoderState` handle. */
  type Handle = nat

  /** The engine calls `encodeAudioBuffer` makes, with their arguments. */
  datatype Call =
    | EncoderInit(channelCount: nat, sampleRate: real, quality: Quality)
    | AnalysisBuffer(state: Handle, sampleCount: nat)
    | Process(state: Handle, sampleCount: nat)
    | DataLen(state: Handle)
    | TransferData(state: Handle)
    | Clear(state: Handle)

  /** The input `AudioBuffer`: `numberOfChannels` is `|channels|`. */
  datatype AudioBuffer = AudioBuffer(sampleRate: real, length: nat, channels: seq<seq<Sample>>) {
    /** Every channel holds exactly `length` samples. */
    predicate Valid() {
      forall c :: 0 <= c < |channels| ==> |channels[c]| == length
    }
  }

  datatype EncodeError =
    | ModuleImportError   // thrown by the gate
    | EngineThrew         // an engine call threw
    | EncodeFailed        // 'Failed to encode audio buffer.': no bytes ready

  /** A mock of the engine module. The handle, pointers and byte counts it
      returns are fixed when it is made; `readyLen` is the engine's count of
      encoded bytes not yet transferred (its `encodedDataLen`). */
  class Engine {
    const handle: Handle
    const failAt: Option<nat>
    /** `ANALYSIS_SAMPLE_COUNT`, the largest chunk the engine accepts. */
    const analysisSampleCount: nat
    /** The byte address `_encoder_analysis_buffer` returns: where the table
        of per-channel buffer addresses starts. */
    const analysisBufferPtr: nat
    /** What `_encoder_transfer_data` returns: the index in `heapU8` of the
        encoded bytes. */
    const dataPtr: nat
    /** Bytes made ready by `_encoder_init`: the header pages. */
    const headerLen: nat
    /** Bytes made ready by the `k`-th successful `_encoder_process` call
        after init, counting from 0: the pages libvorbis happens to flush
        then, often none for the first chunks. */
    const flushed: nat -> nat
    /** `Module.HEAPU32`, `Module.HEAPF32` and `Module.HEAPU8`: three views
        of the engine's memory, indexed in 4-byte, 4-byte and 1-byte units. */
    const heapU32: array<nat>
    const heapF32: array<Sample>
    const heapU8: array<byte>
    var readyLen: nat
    var trace: seq<Call>
    /** Successful `_encoder_process` calls since the last init. */
    var processed: nat
    /** The float view as each `_encoder_process` call found it: the
        samples the engine analyses. */
    ghost var fed: seq<seq<Sample>>

    constructor (handle: Handle, failAt: Option<nat>, analysisSampleCount: nat, analysisBufferPtr: nat,
                 dataPtr: nat, headerLen: nat, flushed: nat -> nat,
                 heapU32: array<nat>, heapF32: array<Sample>, heapU8: array<byte>)
      ensures this.handle == handle && this.failAt == failAt
      ensures this.analysisSampleCount == analysisSampleCount && this.analysisBufferPtr == analysisBufferPtr
      ensures this.dataPtr == dataPtr && this.headerLen == headerLen && this.flushed == flushed
      ensures this.heapU32 == heapU32 && this.heapF32 == heapF32 && this.heapU8 == heapU8
      ensures readyLen == 0 && trace == [] && processed == 0 && fed == []
    {
      this.handle, this.failAt := handle, failAt;
      this.analysisSampleCount, this.analysisBufferPtr := analysisSampleCount, analysisBufferPtr;
      this.dataPtr, this.headerLen, this.flushed := dataPtr, headerLen, flushed;
      this.heapU32, this.heapF32, this.heapU8 := heapU32, heapF32, heapU8;
      readyLen, trace, processed, fed := 0, [], 0, [];
    }

    /** Whether the next call throws. */
    predicate Throws()
      reads this
    {
      failAt == Some(|trace|)
    }

    /** The per-channel table holds `channelCount` addresses, and each
        channel's region of `ANALYSIS_SAMPLE_COUNT` samples lies inside the
        float view. */
    predicate Fits(channelCount: nat)
      reads heapU32
    {
      TableFits(heapU32[..], analysisBufferPtr / 4, channelCount, analysisSampleCount, heapF32.Length)
    }

    /** `_encoder_init` */
    method EncoderInit(channelCount: nat, sampleRate: real, quality: Quality) returns (ok: bool, h: Handle)
      modifies this
      ensures trace == old(trace) + [Call.EncoderInit(channelCount, sampleRate, quality)]
      ensures ok == !old(Throws()) && h == handle
      ensures readyLen == (if ok then headerLen else old(readyLen))
      ensures processed == (if ok then 0 else old(processed)) && fed == old(fed)
    {
      ok, h := !Throws(), handle;
      trace := trace + [Call.EncoderInit(channelCount, sampleRate, quality)];
      if ok { readyLen, processed := headerLen, 0; }
    }

    /** `_encoder_analysis_buffer` */
    method AnalysisBuffer(state: Handle, sampleCount: nat) returns (ok: bool, ptr: nat)
      modifies this
      ensures trace == old(trace) + [Call.AnalysisBuffer(state, sampleCount)]
      ensures ok == !old(Throws()) && ptr == analysisBufferPtr && readyLen == old(readyLen)
      ensures processed == old(processed) && fed == old(fed)
    {
      ok, ptr := !Throws(), analysisBufferPtr;
      trace := trace + [Call.AnalysisBuffer(state, sampleCount)];
    }

    /** `_encoder_process` */
    method Process(state: Handle, sampleCount: nat) returns (ok: bool)
      modifies this
      ensures trace == old(trace) + [Call.Process(state, sampleCount)]
      ensures ok == !old(Throws())
      ensures readyLen == (if ok then old(readyLen) + flushed(old(processed)) else old(readyLen))
      ensures processed == (if ok then old(processed) + 1 else old(processed))
      ensures fed == old(fed) + [heapF32[..]]
    {
      ok := !Throws();
      trace := trace + [Call.Process(state, sampleCount)];
      fed := fed + [heapF32[..]];
      if ok {
        readyLen := readyLen + flushed(processed);
        processed := processed + 1;
      }
    }

    /** `_encoder_data_len` */
    method DataLen(state: Handle) returns (ok: bool, len: nat)
      modifies this
      ensures trace == old(trace) + [Call.DataLen(state)]
      ensures ok == !old(Throws()) && len == readyLen && readyLen == old(readyLen)
      ensures processed == old(processed) && fed == old(fed)
    {
      ok, len := !Throws(), readyLen;
      trace := trace + [Call.DataLen(state)];
    }

    /** `_encoder_transfer_data`: hands over the bytes and empties the count. */
    method TransferData(state: Handle) returns (ok: bool, ptr: nat)
      modifies this
      ensures trace == old(trace) + [Call.TransferData(state)]
      ensures ok == !old(Throws()) && ptr == dataPtr
      ensures readyLen == (if ok then 0 else old(readyLen))
      ensures processed == old(processed) && fed == old(fed)
    {
      ok, ptr := !Throws(), dataPtr;
      trace := trace + [Call.TransferData(state)];
      if ok { readyLen := 0; }
    }

    /** `_encoder_clear` */
    method Clear(state: Handle)
      modifies this
      ensures trace == old(trace) + [Call.Clear(state)] && readyLen == old(readyLen)
      ensures processed == old(processed) && fed == old(fed)
    {
      trace := trace + [Call.Clear(state)];
    }
  }

  // ---------------------------------------------------------------------
  // Staging one chunk: `_analyzeSampleBufferChunk` (src/index.ts:39-47)
  // ---------------------------------------------------------------------

  /** The table of per-channel buffer addresses at `p32` of the 32-bit view
      has `channelCount` entries, and each channel's region of `count`
      samples lies inside a float view of `heapLen` elements. */
  predicate TableFits(heapU32: seq<nat>, p32: nat, channelCount: nat, count: nat, heapLen: nat) {
    && p32 + channelCount <= |heapU32|
    && forall i :: p32 <= i < p32 + channelCount ==> heapU32[i] / 4 + count <= heapLen
  }

  lemma TableFitsSmaller(heapU32: seq<nat>, p32: nat, channelCount: nat, count: nat, smaller: nat, heapLen: nat)
    requires TableFits(heapU32, p32, channelCount, count, heapLen) && smaller <= count
    ensures TableFits(heapU32, p32, channelCount, smaller, heapLen)
  {
  }

  /** The float-view positions of the channel buffers: entry `p32 + c` of
      the 32-bit view holds the byte address of channel `c`'s buffer, and
      `>> 2` turns it into a float index. */
  function ChannelBases(heapU32: seq<nat>, p32: nat, channelCount: nat): (r: seq<nat>)
    requires p32 + channelCount <= |heapU32|
    ensures |r| == channelCount
    ensures forall c :: 0 <= c < channelCount ==> r[c] == heapU32[p32 + c] / 4
    decreases channelCount
  {
    if channelCount == 0 then []
    else ChannelBases(heapU32, p32, channelCount - 1) + [heapU32[p32 + channelCount - 1] / 4]
  }

  /** Every channel holds samples `[from, from + count)` and every
      channel's region of `count` elements lies inside the heap. */
  predicate InBounds(heap: seq<Sample>, channels: seq<seq<Sample>>, bases: seq<nat>, from: nat, count: nat) {
    && |bases| == |channels|
    && forall c :: 0 <= c < |channels| ==> from + count <= |channels[c]| && bases[c] + count <= |heap|
  }

  /** The heap after samples `[from, from + count)` of channels `0 .. i-1`,
      in channel order, were written at each channel's position in `bases`.
      A later channel overwrites an earlier one where their regions overlap. */
  function StageChannels(heap: seq<Sample>, channels: seq<seq<Sample>>, bases: seq<nat>, from: nat, count: nat, i: nat): (r: seq<Sample>)
    requires InBounds(heap, channels, bases, from, count) && i <= |channels|
    ensures |r| == |heap|
  {
    if i == 0 then heap
    else WriteAt(StageChannels(heap, channels, bases, from, count, i - 1), bases[i - 1], channels[i - 1][from..from + count])
  }

  /** Regions of `count` elements at the given positions do not overlap. */
  predicate Disjoint(bases: seq<nat>, count: nat) {
    forall c, d :: 0 <= c < d < |bases| ==> bases[c] + count <= bases[d] || bases[d] + count <= bases[c]
  }

  /** Position `k` lies in none of the regions. */
  predicate Untouched(bases: seq<nat>, count: nat, k: nat) {
    forall c :: 0 <= c < |bases| ==> !(bases[c] <= k < bases[c] + count)
  }

  /** Inside the region of a channel `c` below `i`, with no other region
      overlapping it, the staged heap holds that channel's samples. */
  lemma {:induction false} StagedInside(heap: seq<Sample>, channels: seq<seq<Sample>>, bases: seq<nat>, from: nat, count: nat, i: nat, c: nat, k: nat)
    requires InBounds(heap, channels, bases, from, count) && i <= |channels|
    requires Disjoint(bases, count)
    requires c < i && bases[c] <= k < bases[c] + count
    ensures StageChannels(heap, channels, bases, from, count, i)[k] == channels[c][from + (k - bases[c])]
  {
    if c < i - 1 {
      assert !(bases[i - 1] <= k < bases[i - 1] + count);
      StagedInside(heap, channels, bases, from, count, i - 1, c, k);
    }
  }

  /** Outside the regions of channels below `i` the staged heap keeps its
      old value. */
  lemma {:induction false} StagedOutside(heap: seq<Sample>, channels: seq<seq<Sample>>, bases: seq<nat>, from: nat, count: nat, i: nat, k: nat)
    requires InBounds(heap, channels, bases, from, count) && i <= |channels|
    requires k < |heap| && Untouched(bases, count, k)
    ensures StageChannels(heap, channels, bases, from, count, i)[k] == heap[k]
  {
    if i > 0 {
      assert !(bases[i - 1] <= k < bases[i - 1] + count);
      StagedOutside(heap, channels, bases, from, count, i - 1, k);
    }
  }

  /** With non-overlapping regions, after all channels are staged each
      channel's region holds exactly that channel's samples
      `[from, from + count)` and every other heap element keeps its value. */
  lemma StagedRegions(heap: seq<Sample>, channels: seq<seq<Sample>>, bases: seq<nat>, from: nat, count: nat)
    requires InBounds(heap, channels, bases, from, count)
    requires Disjoint(bases, count)
    ensures var r := StageChannels(heap, channels, bases, from, count, |channels|);
      && (forall c, k :: 0 <= c < |channels| && bases[c] <= k < bases[c] + count ==> r[k] == channels[c][from + (k - bases[c])])
      && (forall k :: 0 <= k < |heap| && Untouched(bases, count, k) ==> r[k] == heap[k])
  {
    forall c, k | 0 <= c < |channels| && bases[c] <= k < bases[c] + count {
      StagedInside(heap, channels, bases, from, count, |channels|, c, k);
    }
    forall k | 0 <= k < |heap| && Untouched(bases, count, k) {
      StagedOutside(heap, channels, bases, from, count, |channels|, k);
    }
  }

  /** The float view holds, in each channel's region of `count` elements,
      that channel's samples `[from, from + count)`. */
  predicate SawChunk(heap: seq<Sample>, channels: seq<seq<Sample>>, bases: seq<nat>, from: nat, count: nat) {
    && InBounds(heap, channels, bases, from, count)
    && forall c, k :: 0 <= c < |channels| && bases[c] <= k < bases[c] + count ==> heap[k] == channels[c][from + (k - bases[c])]
  }

  /** Staging every channel with non-overlapping regions leaves each
      channel's chunk in its region. */
  lemma StagedSawChunk(heap: seq<Sample>, channels: seq<seq<Sample>>, bases: seq<nat>, from: nat, count: nat)
    requires InBounds(heap, channels, bases, from, count) && Disjoint(bases, count)
    ensures SawChunk(StageChannels(heap, channels, bases, from, count, |channels|), channels, bases, from, count)
  {
    StagedRegions(heap, channels, bases, from, count);
  }

  /** Float view `feeds[j]` holds the samples of chunk `chunks[j]`, for
      every `j`; stated view by view from the last one back. */
  predicate SawChunks(feeds: seq<seq<Sample>>, channels: seq<seq<Sample>>, bases: seq<nat>, chunks: seq<Chunk>)
    decreases |feeds|
  {
    && |feeds| == |chunks|
    && (feeds != [] ==>
          && SawChunks(feeds[..|feeds| - 1], channels, bases, chunks[..|chunks| - 1])
          && SawChunk(feeds[|feeds| - 1], channels, bases, chunks[|chunks| - 1].from, chunks[|chunks| - 1].count))
  }

  lemma SawChunksAppend(feeds: seq<seq<Sample>>, channels: seq<seq<Sample>>, bases: seq<nat>, chunks: seq<Chunk>,
                        heap: seq<Sample>, chunk: Chunk)
    requires SawChunks(feeds, channels, bases, chunks)
    requires SawChunk(heap, channels, bases, chunk.from, chunk.count)
    ensures SawChunks(feeds + [heap], channels, bases, chunks + [chunk])
  {
    assert (feeds + [heap])[..|feeds|] == feeds && (chunks + [chunk])[..|chunks|] == chunks;
  }

  /** The recursive statement of `SawChunks` holds at every index. */
  lemma {:induction false} SawChunksEach(feeds: seq<seq<Sample>>, channels: seq<seq<Sample>>, bases: seq<nat>, chunks: seq<Chunk>)
    requires SawChunks(feeds, channels, bases, chunks)
    ensures forall j :: 0 <= j < |feeds| ==> SawChunk(feeds[j], channels, bases, chunks[j].from, chunks[j].count)
    decreases |feeds|
  {
    if feeds != [] {
      var n := |feeds| - 1;
      SawChunksEach(feeds[..n], channels, bases, chunks[..n]);
      assert forall j :: 0 <= j < n ==> feeds[..n][j] == feeds[j] && chunks[..n][j] == chunks[j];
    }
  }

  /** Regions that do not overlap do not overlap when shortened. */
  lemma DisjointSmaller(bases: seq<nat>, count: nat, smaller: nat)
    requires Disjoint(bases, count) && smaller <= count
    ensures Disjoint(bases, smaller)
  {
  }

  /** One iteration of the channel loop of `_analyzeSampleBufferChunk`:
      reads channel `channelI`'s address from the table and sets
      `channelSamples.subarray(from, from + count)` there. */
  method StageChannel(heapU32: array<nat>, heapF32: array<Sample>, ghost heap0: seq<Sample>, channels: seq<seq<Sample>>,
                      ghost bases: seq<nat>, from: nat, count: nat, p32: nat, channelI: nat)
    requires p32 + |channels| <= heapU32.Length && bases == ChannelBases(heapU32[..], p32, |channels|)
    requires InBounds(heap0, channels, bases, from, count) && channelI < |channels|
    requires heapF32[..] == StageChannels(heap0, channels, bases, from, count, channelI)
    modifies heapF32
    ensures heapF32[..] == StageChannels(heap0, channels, bases, from, count, channelI + 1)
  {
    var channelSamples := channels[channelI];
    var p32ChannelAnalysisBuffer := heapU32[p32 + channelI] / 4;
    assert p32ChannelAnalysisBuffer == bases[channelI];
    var samples := Subarray(channelSamples, from, from + count);
    assert samples == channels[channelI][from..from + count];
    Blit(heapF32, p32ChannelAnalysisBuffer, samples);
  }

  /** A table that fits puts every channel's region inside the heap. */
  lemma BasesInBounds(heapU32: seq<nat>, heap: seq<Sample>, channels: seq<seq<Sample>>, p32: nat, from: nat, count: nat)
    requires TableFits(heapU32, p32, |channels|, count, |heap|)
    requires forall c :: 0 <= c < |channels| ==> from + count <= |channels[c]|
    ensures InBounds(heap, channels, ChannelBases(heapU32, p32, |channels|), from, count)
  {
    var bases := ChannelBases(heapU32, p32, |channels|);
    forall c | 0 <= c < |channels|
      ensures bases[c] + count <= |heap|
    {
      assert bases[c] == heapU32[p32 + c] / 4;
    }
  }

  /** The channel loop of `_analyzeSampleBufferChunk`: copies samples
      `[from, from + count)` of every channel, in channel order, to that
      channel's position, read from the table at `p32` of the 32-bit view. */
  method StageChunk(heapU32: array<nat>, heapF32: array<Sample>, channels: seq<seq<Sample>>, from: nat, count: nat, p32: nat,
                    ghost bases: seq<nat>)
    requires p32 + |channels| <= heapU32.Length && bases == ChannelBases(heapU32[..], p32, |channels|)
    requires InBounds(heapF32[..], channels, bases, from, count)
    modifies heapF32
    ensures heapF32[..] == StageChannels(old(heapF32[..]), channels, bases, from, count, |channels|)
  {
    ghost var heap0 := heapF32[..];
    var channelI := 0;
    while channelI < |channels|
      invariant 0 <= channelI <= |channels|
      invariant heapF32[..] == StageChannels(heap0, channels, bases, from, count, channelI)
    {
      StageChannel(heapU32, heapF32, heap0, channels, bases, from, count, p32, channelI);
      channelI := channelI + 1;
    }
  }

  /** `_analyzeSampleBufferChunk`: stages the chunk of every channel, then
      calls `_encoder_process(state, count)` once. */
  method AnalyzeSampleBufferChunk(engine: Engine, state: Handle, channels: seq<seq<Sample>>, from: nat, count: nat, p32: nat)
      returns (ok: bool)
    requires TableFits(engine.heapU32[..], p32, |channels|, count, engine.heapF32.Length)
    requires forall c :: 0 <= c < |channels| ==> from + count <= |channels[c]|
    modifies engine, engine.heapF32
    ensures InBounds(old(engine.heapF32[..]), channels, ChannelBases(engine.heapU32[..], p32, |channels|), from, count)
    ensures engine.heapF32[..] == StageChannels(old(engine.heapF32[..]), channels, ChannelBases(engine.heapU32[..], p32, |channels|), from, count, |channels|)
    ensures engine.trace == old(engine.trace) + [Process(state, count)]
    ensures ok == !old(engine.Throws())
    ensures engine.readyLen == (if ok then old(engine.readyLen) + engine.flushed(old(engine.processed)) else old(engine.readyLen))
    ensures engine.processed == (if ok then old(engine.processed) + 1 else old(engine.processed))
    ensures engine.fed == old(engine.fed) + [engine.heapF32[..]]
    ensures Disjoint(ChannelBases(engine.heapU32[..], p32, |channels|), count) ==>
      SawChunk(engine.heapF32[..], channels, ChannelBases(engine.heapU32[..], p32, |channels|), from, count)
  {
    BasesInBounds(engine.heapU32[..], engine.heapF32[..], channels, p32, from, count);
    ghost var heap0 := engine.heapF32[..];
    StageChunk(engine.heapU32, engine.heapF32, channels, from, count, p32, ChannelBases(engine.heapU32[..], p32, |channels|));
    if Disjoint(ChannelBases(engine.heapU32[..], p32, |channels|), count) {
      StagedSawChunk(heap0, channels, ChannelBases(engine.heapU32[..], p32, |channels|), from, count);
    }
    ok := engine.Process(state, count);
  }

  // ---------------------------------------------------------------------
  // Draining: `_getOggBytes` (src/index.ts:49-54)
  // ---------------------------------------------------------------------

  /** `_getOggBytes`: fails when no encoded byte is ready; otherwise copies
      out exactly the ready bytes at the transfer position (clamped to the
      heap, as `subarray` does). */
  method GetOggBytes(engine: Engine, state: Handle) returns (r: Result<seq<byte>, EncodeError>)
    modifies engine
    ensures var t0, len := old(engine.trace), old(engine.readyLen);
      if engine.failAt == Some(|t0|) then
        engine.trace == t0 + [DataLen(state)] && r == Failure(EngineThrew)
      else if len == 0 then
        engine.trace == t0 + [DataLen(state)] && r == Failure(EncodeFailed)
      else if engine.failAt == Some(|t0| + 1) then
        engine.trace == t0 + [DataLen(state), TransferData(state)] && r == Failure(EngineThrew)
      else
        && engine.trace == t0 + [DataLen(state), TransferData(state)]
        && r == Success(Subarray(engine.heapU8[..], engine.dataPtr, engine.dataPtr + len))
        && engine.readyLen == 0
  {
    var ok, oggBytesLength := engine.DataLen(state);
    if !ok {
      return Failure(EngineThrew);
    }
    if oggBytesLength == 0 {
      return Failure(EncodeFailed);
    }
    var pOggBytes;
    ok, pOggBytes := engine.TransferData(state);
    if !ok {
      return Failure(EngineThrew);
    }
    return Success(Subarray(engine.heapU8[..], pOggBytes, pOggBytes + oggBytesLength));
  }

  // ---------------------------------------------------------------------
  // `encodeAudioBuffer` (src/index.ts:75-100)
  // ---------------------------------------------------------------------

  /** One `_encoder_process` call per chunk, with the chunk's size. */
  function ProcessCalls(state: Handle, cs: seq<Chunk>): (r: seq<Call>)
    ensures |r| == |cs|
  {
    if cs == [] then [] else [Process(state, cs[0].count)] + ProcessCalls(state, cs[1..])
  }

  lemma {:induction false} ProcessCallsOnlyProcess(state: Handle, cs: seq<Chunk>)
    ensures forall i :: 0 <= i < |cs| ==> ProcessCalls(state, cs)[i].Process?
  {
    if cs != [] {
      ProcessCallsOnlyProcess(state, cs[1..]);
      assert forall i :: 1 <= i < |cs| ==> ProcessCalls(state, cs)[i] == ProcessCalls(state, cs[1..])[i - 1];
    }
  }

  lemma {:induction false} ProcessCallsConcat(state: Handle, a: seq<Chunk>, b: seq<Chunk>)
    ensures ProcessCalls(state, a + b) == ProcessCalls(state, a) + ProcessCalls(state, b)
  {
    if a == [] {
      assert a + b == b;
    } else {
      assert (a + b)[0] == a[0] && (a + b)[1..] == a[1..] + b;
      ProcessCallsConcat(state, a[1..], b);
      AppendAssoc([Process(state, a[0].count)], ProcessCalls(state, a[1..]), ProcessCalls(state, b));
    }
  }

  /** The bytes `k` successful process calls flush, starting with call
      number `from`. */
  function Flushed(flushed: nat -> nat, from: nat, k: nat): nat {
    if k == 0 then 0 else Flushed(flushed, from, k - 1) + flushed(from + k - 1)
  }

  /** Bytes the engine reports ready at the drain after `n` samples: the
      header pages plus what each process call flushed. */
  function ReadyAtDrain(engine: Engine, n: nat): nat
    requires engine.analysisSampleCount > 0
  {
    engine.headerLen + Flushed(engine.flushed, 0, |Chunks(n, engine.analysisSampleCount, 0)|)
  }

  /** The engine calls after the analysis buffer when none of them throws:
      one process call per chunk, then the drain (which stops after the
      length when it is 0). */
  function DrainPlan(engine: Engine, n: nat): seq<Call>
    requires engine.analysisSampleCount > 0
  {
    var h := engine.handle;
    ProcessCalls(h, Chunks(n, engine.analysisSampleCount, 0))
      + [DataLen(h)] + (if ReadyAtDrain(engine, n) == 0 then [] else [TransferData(h)])
  }

  /** The engine calls of the `try` block when none of them throws: init,
      one analysis buffer for the whole input, then the chunks and the drain. */
  function PlannedCalls(engine: Engine, audio: AudioBuffer, quality: Quality): seq<Call>
    requires engine.analysisSampleCount > 0
  {
    [EncoderInit(|audio.channels|, audio.sampleRate, quality), AnalysisBuffer(engine.handle, audio.length)]
      + DrainPlan(engine, audio.length)
  }

  /** What the drain returns when the calls of `plan`, made from `start` on,
      are the last ones before it returns. */
  function DrainOutcome(engine: Engine, n: nat, plan: seq<Call>, start: nat, heapU8: seq<byte>): Result<seq<byte>, EncodeError>
    requires engine.analysisSampleCount > 0
  {
    var ready := ReadyAtDrain(engine, n);
    if ThrowsWithin(engine.failAt, start, |plan|) then Failure(EngineThrew)
    else if ready == 0 then Failure(EncodeFailed)
    else Success(Subarray(heapU8, engine.dataPtr, engine.dataPtr + ready))
  }

  /** Whether the call that throws is one of the `len` calls from `start` on. */
  predicate ThrowsWithin(failAt: Option<nat>, start: nat, len: nat) {
    failAt.Some? && start <= failAt.value < start + len
  }

  /** The calls actually made from `planned`, made from trace position
      `start` on: all of them, or those up to and including the one that
      throws. */
  function Attempted(planned: seq<Call>, start: nat, failAt: Option<nat>): (r: seq<Call>)
    ensures ThrowsWithin(failAt, start, |planned|) ==> |r| == failAt.value - start + 1
    ensures !ThrowsWithin(failAt, start, |planned|) ==> r == planned
  {
    if ThrowsWithin(failAt, start, |planned|) then planned[..failAt.value - start + 1] else planned
  }

  /** Every call `encodeAudioBuffer` makes, the `finally` block included: the
      clear runs exactly when init returned a handle. */
  function EncodeCalls(engine: Engine, audio: AudioBuffer, quality: Quality, start: nat): seq<Call>
    requires engine.analysisSampleCount > 0
  {
    Attempted(PlannedCalls(engine, audio, quality), start, engine.failAt)
      + (if engine.failAt == Some(start) then [] else [Clear(engine.handle)])
  }

  /** What `encodeAudioBuffer` returns once the gate has let it through. */
  function EncodeOutcome(engine: Engine, audio: AudioBuffer, quality: Quality, start: nat, heapU8: seq<byte>): Result<seq<byte>, EncodeError>
    requires engine.analysisSampleCount > 0
  {
    DrainOutcome(engine, audio.length, PlannedCalls(engine, audio, quality), start, heapU8)
  }

  /** How many `_encoder_clear` calls a trace holds. */
  function Clears(calls: seq<Call>): nat {
    if calls == [] then 0 else (if calls[0].Clear? then 1 else 0) + Clears(calls[1..])
  }

  lemma {:induction false} ClearsAppend(a: seq<Call>, b: seq<Call>)
    ensures Clears(a + b) == Clears(a) + Clears(b)
  {
    if a == [] {
      assert a + b == b;
    } else {
      assert (a + b)[0] == a[0] && (a + b)[1..] == a[1..] + b;
      ClearsAppend(a[1..], b);
    }
  }

  lemma {:induction false} NoClears(calls: seq<Call>)
    requires forall i :: 0 <= i < |calls| ==> !calls[i].Clear?
    ensures Clears(calls) == 0
  {
    if calls != [] {
      NoClears(calls[1..]);
    }
  }

  /** Cleanup discipline: `_encoder_clear` runs exactly once when
      `_encoder_init` returned, as the very last call whether or not a later
      call threw, and never when init itself threw; the first call made is
      always init. */
  lemma EncodeClearsOnce(engine: Engine, audio: AudioBuffer, quality: Quality, start: nat)
    requires engine.analysisSampleCount > 0
    ensures var calls := EncodeCalls(engine, audio, quality, start);
      && |calls| >= 1
      && calls[0] == EncoderInit(|audio.channels|, audio.sampleRate, quality)
      && Clears(calls) == (if engine.failAt == Some(start) then 0 else 1)
      && (engine.failAt != Some(start) ==> calls[|calls| - 1] == Clear(engine.handle))
  {
    var planned := PlannedCalls(engine, audio, quality);
    var attempted := Attempted(planned, start, engine.failAt);
    assert |attempted| >= 1 && attempted[0] == planned[0];
    var cs := Chunks(audio.length, engine.analysisSampleCount, 0);
    ProcessCallsOnlyProcess(engine.handle, cs);
    assert forall i :: 0 <= i < |planned| ==> !planned[i].Clear?;
    assert forall i :: 0 <= i < |attempted| ==> attempted[i] == planned[i];
    NoClears(attempted);
    ClearsAppend(attempted, if engine.failAt == Some(start) then [] else [Clear(engine.handle)]);
  }

  /** The process calls cover the input exactly: every chunk is non-empty and
      at most `ANALYSIS_SAMPLE_COUNT`, their sizes add up to the sample count,
      and there are `ceil(length / ANALYSIS_SAMPLE_COUNT)` of them, none for
      an empty buffer. */
  lemma ProcessCallsCoverInput(engine: Engine, audio: AudioBuffer, quality: Quality)
    requires engine.analysisSampleCount > 0
    ensures var m, n := engine.analysisSampleCount, audio.length;
      var cs := Chunks(n, m, 0);
      var k := |cs|;
      && PlannedCalls(engine, audio, quality)[2..2 + k] == ProcessCalls(engine.handle, cs)
      && (forall i :: 0 <= i < k ==> 0 < cs[i].count <= m)
      && Sum(Counts(cs)) == n
      && (k == 0 <==> n == 0) && n <= k * m && (k > 0 ==> (k - 1) * m < n)
  {
    var m, n := engine.analysisSampleCount, audio.length;
    ChunksBounded(n, m, 0);
    ChunksSum(n, m, 0);
    ChunksCount(n, m, 0);
  }

  /** The calls attempted from a plan made of two parts: the second part is
      reached only when no call of the first one throws. */
  lemma AttemptedConcat(a: seq<Call>, b: seq<Call>, start: nat, failAt: Option<nat>)
    ensures Attempted(a + b, start, failAt) ==
      if ThrowsWithin(failAt, start, |a|) then Attempted(a, start, failAt) else a + Attempted(b, start + |a|, failAt)
  {
    if ThrowsWithin(failAt, start, |a|) {
      assert (a + b)[..failAt.value - start + 1] == a[..failAt.value - start + 1];
    } else if ThrowsWithin(failAt, start + |a|, |b|) {
      assert (a + b)[..failAt.value - start + 1] == a + b[..failAt.value - (start + |a|) + 1];
    }
  }

  /** One turn of the chunk loop: the next chunk, of at most
      `ANALYSIS_SAMPLE_COUNT` samples, is staged and processed. `done` are
      the chunks already processed, `feeds` the views the engine found at
      them, and `t0`, `r0`, `p0`, `f0` the engine's logs before the loop. */
  method AnalyzeNextChunk(engine: Engine, state: Handle, channels: seq<seq<Sample>>, sampleCount: nat, p32: nat,
                          fromSampleNo: nat, ghost bases: seq<nat>, ghost t0: seq<Call>, ghost r0: nat, ghost p0: nat,
                          ghost f0: seq<seq<Sample>>, ghost done: seq<Chunk>, ghost feeds: seq<seq<Sample>>)
      returns (ok: bool, count: nat, ghost done': seq<Chunk>, ghost feeds': seq<seq<Sample>>)
    requires fromSampleNo < sampleCount && engine.analysisSampleCount > 0
    requires forall c :: 0 <= c < |channels| ==> |channels[c]| == sampleCount
    requires TableFits(engine.heapU32[..], p32, |channels|, engine.analysisSampleCount, engine.heapF32.Length)
    requires bases == ChannelBases(engine.heapU32[..], p32, |channels|)
    requires Chunks(sampleCount, engine.analysisSampleCount, 0) == done + Chunks(sampleCount, engine.analysisSampleCount, fromSampleNo)
    requires engine.trace == t0 + ProcessCalls(state, done) && engine.fed == f0 + feeds && |feeds| == |done|
    requires engine.readyLen == r0 + Flushed(engine.flushed, p0, |done|) && engine.processed == p0 + |done|
    requires !ThrowsWithin(engine.failAt, |t0|, |done|)
    modifies engine, engine.heapF32
    ensures count == Min(engine.analysisSampleCount, sampleCount - fromSampleNo) && 0 < count
    ensures done' == done + [Chunk(fromSampleNo, count)] && |feeds'| == |done'|
    ensures Chunks(sampleCount, engine.analysisSampleCount, 0) == done' + Chunks(sampleCount, engine.analysisSampleCount, fromSampleNo + count)
    ensures engine.trace == t0 + ProcessCalls(state, done') && engine.fed == f0 + feeds'
    ensures ok ==> engine.readyLen == r0 + Flushed(engine.flushed, p0, |done'|) && engine.processed == p0 + |done'|
    ensures ok == !ThrowsWithin(engine.failAt, |t0|, |done'|)
    ensures !ok ==> engine.failAt == Some(|t0| + |done'| - 1)
    ensures Disjoint(bases, engine.analysisSampleCount) && SawChunks(feeds, channels, bases, done) ==>
      SawChunks(feeds', channels, bases, done')
  {
    var m := engine.analysisSampleCount;
    count := Min(m, sampleCount - fromSampleNo);
    TableFitsSmaller(engine.heapU32[..], p32, |channels|, m, count, engine.heapF32.Length);
    if Disjoint(bases, m) {
      DisjointSmaller(bases, m, count);
    }
    ghost var ready, processed := engine.readyLen, engine.processed;
    ok := AnalyzeSampleBufferChunk(engine, state, channels, fromSampleNo, count, p32);
    NextChunkCounters(ok, engine.failAt, |t0|, |done|, engine.flushed, p0, r0, ready, engine.readyLen, processed, engine.processed);
    ghost var chunk := Chunk(fromSampleNo, count);
    ghost var heap := engine.heapF32[..];
    if Disjoint(bases, m) && SawChunks(feeds, channels, bases, done) {
      SawChunksAppend(feeds, channels, bases, done, heap, chunk);
    }
    done', feeds' := done + [chunk], feeds + [heap];
    NextChunkLogs(state, sampleCount, m, fromSampleNo, count, t0, done, f0, feeds, heap);
    assert |done'| == |done| + 1;
  }

  /** The counters of the chunk loop after one more process call: it
      throws exactly when the failure is at its place, and otherwise its
      bytes join the flushed total. */
  lemma NextChunkCounters(ok: bool, failAt: Option<nat>, start: nat, k: nat, flushed: nat -> nat, p0: nat, r0: nat,
                          ready: nat, ready': nat, processed: nat, processed': nat)
    requires !ThrowsWithin(failAt, start, k) && ok == (failAt != Some(start + k))
    requires ready == r0 + Flushed(flushed, p0, k) && processed == p0 + k
    requires ready' == (if ok then ready + flushed(processed) else ready)
    requires processed' == (if ok then processed + 1 else processed)
    ensures ok == !ThrowsWithin(failAt, start, k + 1)
    ensures !ok ==> failAt == Some(start + k)
    ensures ok ==> ready' == r0 + Flushed(flushed, p0, k + 1) && processed' == p0 + k + 1
  {
  }

  /** The logs of the chunk loop after one more turn, in terms of the chunks
      done so far. */
  lemma NextChunkLogs(state: Handle, n: nat, m: nat, from: nat, count: nat, t0: seq<Call>, done: seq<Chunk>,
                      f0: seq<seq<Sample>>, feeds: seq<seq<Sample>>, heap: seq<Sample>)
    requires m > 0 && from < n && count == Min(m, n - from)
    requires Chunks(n, m, 0) == done + Chunks(n, m, from)
    ensures Chunks(n, m, 0) == (done + [Chunk(from, count)]) + Chunks(n, m, from + count)
    ensures (t0 + ProcessCalls(state, done)) + [Process(state, count)] == t0 + ProcessCalls(state, done + [Chunk(from, count)])
    ensures (f0 + feeds) + [heap] == f0 + (feeds + [heap])
  {
    ChunksStep(n, m, from);
    AppendAssoc(done, [Chunk(from, count)], Chunks(n, m, from + count));
    ProcessCallsConcat(state, done, [Chunk(from, count)]);
    AppendAssoc(t0, ProcessCalls(state, done), [Process(state, count)]);
    AppendAssoc(f0, feeds, [heap]);
  }

  /** The chunk loop of `encodeAudioBuffer`: one `_analyzeSampleBufferChunk`
      per chunk of the plan, stopping at the first call that throws. Each
      process call made finds, when the channel regions do not overlap,
      every channel's samples of its chunk in that channel's region. */
  method AnalyzeAllChunks(engine: Engine, state: Handle, channels: seq<seq<Sample>>, sampleCount: nat, p32: nat)
      returns (ok: bool, ghost done: seq<Chunk>, ghost rest: seq<Chunk>, ghost feeds: seq<seq<Sample>>)
    requires engine.analysisSampleCount > 0
    requires forall c :: 0 <= c < |channels| ==> |channels[c]| == sampleCount
    requires TableFits(engine.heapU32[..], p32, |channels|, engine.analysisSampleCount, engine.heapF32.Length)
    modifies engine, engine.heapF32
    ensures Chunks(sampleCount, engine.analysisSampleCount, 0) == done + rest
    ensures engine.trace == old(engine.trace) + ProcessCalls(state, done) && engine.fed == old(engine.fed) + feeds
    ensures ok ==> rest == [] && !ThrowsWithin(engine.failAt, |old(engine.trace)|, |done|)
    ensures ok ==> engine.readyLen == old(engine.readyLen) + Flushed(engine.flushed, old(engine.processed), |done|)
    ensures ok ==> engine.processed == old(engine.processed) + |done|
    ensures !ok ==> done != [] && engine.failAt == Some(|old(engine.trace)| + |done| - 1)
    ensures var bases := ChannelBases(engine.heapU32[..], p32, |channels|);
      Disjoint(bases, engine.analysisSampleCount) ==> SawChunks(feeds, channels, bases, done)
  {
    var m := engine.analysisSampleCount;
    ghost var t0, r0, p0, f0 := engine.trace, engine.readyLen, engine.processed, engine.fed;
    ghost var bases := ChannelBases(engine.heapU32[..], p32, |channels|);
    ghost var apart := Disjoint(bases, m);
    done, feeds := [], [];
    var fromSampleNo := 0;
    while fromSampleNo < sampleCount
      invariant fromSampleNo <= sampleCount
      invariant Chunks(sampleCount, m, 0) == done + Chunks(sampleCount, m, fromSampleNo)
      invariant engine.trace == t0 + ProcessCalls(state, done) && engine.fed == f0 + feeds && |feeds| == |done|
      invariant engine.readyLen == r0 + Flushed(engine.flushed, p0, |done|) && engine.processed == p0 + |done|
      invariant !ThrowsWithin(engine.failAt, |t0|, |done|)
      invariant apart ==> SawChunks(feeds, channels, bases, done)
      decreases sampleCount - fromSampleNo
    {
      var count;
      ok, count, done, feeds := AnalyzeNextChunk(engine, state, channels, sampleCount, p32, fromSampleNo, bases,
                                               t0, r0, p0, f0, done, feeds);
      if !ok {
        rest := Chunks(sampleCount, m, fromSampleNo + count);
        return;
      }
      fromSampleNo := fromSampleNo + count;
      // `await _yield()` hands control to the event loop and changes nothing here.
    }
    ok, rest := true, Chunks(sampleCount, m, fromSampleNo);
  }

  /** Where the chunk loop stops, after the chunks `done` of the plan `cs`:
      at the end of the plan when no call threw, or right after the call
      that threw. Either way the calls made are those of `done`. */
  lemma ChunkLoopStops(state: Handle, cs: seq<Chunk>, done: seq<Chunk>, rest: seq<Chunk>, start: nat,
                       failAt: Option<nat>, ok: bool)
    requires cs == done + rest
    requires ok ==> rest == [] && !ThrowsWithin(failAt, start, |done|)
    requires !ok ==> done != [] && failAt == Some(start + |done| - 1)
    ensures Attempted(ProcessCalls(state, cs), start, failAt) == ProcessCalls(state, done)
    ensures ok == !ThrowsWithin(failAt, start, |cs|)
    ensures cs[..|done|] == done && (ok ==> done == cs)
  {
    ProcessCallsConcat(state, done, rest);
    if ok {
      assert cs == done;
    } else {
      assert ProcessCalls(state, cs)[..|done|] == ProcessCalls(state, done);
    }
  }

  /** The chunk loop followed by `_getOggBytes`, from the state init left:
      only the header pages are ready. */
  method AnalyzeAndDrain(engine: Engine, state: Handle, channels: seq<seq<Sample>>, sampleCount: nat, p32: nat)
      returns (r: Result<seq<byte>, EncodeError>)
    requires state == engine.handle
    requires engine.analysisSampleCount > 0 && engine.readyLen == engine.headerLen && engine.processed == 0
    requires forall c :: 0 <= c < |channels| ==> |channels[c]| == sampleCount
    requires TableFits(engine.heapU32[..], p32, |channels|, engine.analysisSampleCount, engine.heapF32.Length)
    modifies engine, engine.heapF32
    ensures var plan, start := DrainPlan(engine, sampleCount), |old(engine.trace)|;
      && engine.trace == old(engine.trace) + Attempted(plan, start, engine.failAt)
      && r == DrainOutcome(engine, sampleCount, plan, start, engine.heapU8[..])
  {
    ghost var t0, start := engine.trace, |engine.trace|;
    var h := state;
    ghost var procs := ProcessCalls(h, Chunks(sampleCount, engine.analysisSampleCount, 0));
    ghost var tail := [DataLen(h)] + (if ReadyAtDrain(engine, sampleCount) == 0 then [] else [TransferData(h)]);
    ghost var plan := DrainPlan(engine, sampleCount);
    assert plan == procs + tail;
    AttemptedConcat(procs, tail, start, engine.failAt);
    var ok;
    ghost var done, rest, feeds;
    ok, done, rest, feeds := AnalyzeAllChunks(engine, h, channels, sampleCount, p32);
    ChunkLoopStops(h, Chunks(sampleCount, engine.analysisSampleCount, 0), done, rest, start, engine.failAt, ok);
    if !ok {
      assert ThrowsWithin(engine.failAt, start, |procs|) && ThrowsWithin(engine.failAt, start, |plan|);
      assert engine.trace == t0 + Attempted(plan, start, engine.failAt);
      return Failure(EngineThrew);
    }
    r := DrainChunked(engine, sampleCount, t0);
  }

  /** `_getOggBytes` once every chunk was processed without a throw. */
  method DrainChunked(engine: Engine, sampleCount: nat, ghost t0: seq<Call>) returns (r: Result<seq<byte>, EncodeError>)
    requires engine.analysisSampleCount > 0
    requires var procs := ProcessCalls(engine.handle, Chunks(sampleCount, engine.analysisSampleCount, 0));
      && engine.trace == t0 + procs && !ThrowsWithin(engine.failAt, |t0|, |procs|)
      && engine.readyLen == ReadyAtDrain(engine, sampleCount)
    modifies engine
    ensures var plan := DrainPlan(engine, sampleCount);
      && engine.trace == t0 + Attempted(plan, |t0|, engine.failAt)
      && r == DrainOutcome(engine, sampleCount, plan, |t0|, engine.heapU8[..])
  {
    ghost var t1, len := engine.trace, engine.readyLen;
    r := GetOggBytes(engine, engine.handle);
    DrainAfterChunks(engine, sampleCount, t0, t1, len, engine.trace, r, engine.heapU8[..]);
  }

  /** `_getOggBytes` after a chunk loop in which no call threw: its calls
      are the tail of the drain plan, and its result is the drain's. */
  lemma DrainAfterChunks(engine: Engine, n: nat, t0: seq<Call>, t1: seq<Call>, len: nat, trace: seq<Call>,
                         r: Result<seq<byte>, EncodeError>, heapU8: seq<byte>)
    requires engine.analysisSampleCount > 0 && len == ReadyAtDrain(engine, n)
    requires var procs := ProcessCalls(engine.handle, Chunks(n, engine.analysisSampleCount, 0));
      t1 == t0 + procs && !ThrowsWithin(engine.failAt, |t0|, |procs|)
    requires var h := engine.handle;
      if engine.failAt == Some(|t1|) then
        trace == t1 + [DataLen(h)] && r == Failure(EngineThrew)
      else if len == 0 then
        trace == t1 + [DataLen(h)] && r == Failure(EncodeFailed)
      else if engine.failAt == Some(|t1| + 1) then
        trace == t1 + [DataLen(h), TransferData(h)] && r == Failure(EngineThrew)
      else
        trace == t1 + [DataLen(h), TransferData(h)] && r == Success(Subarray(heapU8, engine.dataPtr, engine.dataPtr + len))
    ensures trace == t0 + Attempted(DrainPlan(engine, n), |t0|, engine.failAt)
    ensures r == DrainOutcome(engine, n, DrainPlan(engine, n), |t0|, heapU8)
  {
    var h, start := engine.handle, |t0|;
    var procs := ProcessCalls(h, Chunks(n, engine.analysisSampleCount, 0));
    var tail := [DataLen(h)] + (if len == 0 then [] else [TransferData(h)]);
    assert DrainPlan(engine, n) == procs + tail;
    AttemptedConcat(procs, tail, start, engine.failAt);
    if engine.failAt == Some(|t1|) {
      assert ThrowsWithin(engine.failAt, start, |procs + tail|);
      assert tail[..1] == [DataLen(h)];
    } else if len == 0 {
      assert !ThrowsWithin(engine.failAt, start, |procs + tail|);
    } else if engine.failAt == Some(|t1| + 1) {
      assert ThrowsWithin(engine.failAt, start, |procs + tail|);
    } else {
      assert !ThrowsWithin(engine.failAt, start, |procs + tail|);
    }
    AppendAssoc(t0, procs, Attempted(tail, |t1|, engine.failAt));
  }

  /** After init: the analysis buffer (obtained once, before the loop),
      then the chunk loop and the single drain. */
  method BufferAndDrain(engine: Engine, handle: Handle, audio: AudioBuffer) returns (r: Result<seq<byte>, EncodeError>)
    requires handle == engine.handle && engine.readyLen == engine.headerLen && engine.processed == 0
    requires engine.analysisSampleCount > 0 && audio.Valid() && engine.Fits(|audio.channels|)
    modifies engine, engine.heapF32
    ensures var plan, start := [AnalysisBuffer(handle, audio.length)] + DrainPlan(engine, audio.length), |old(engine.trace)|;
      && engine.trace == old(engine.trace) + Attempted(plan, start, engine.failAt)
      && r == DrainOutcome(engine, audio.length, plan, start, engine.heapU8[..])
  {
    ghost var t0, start := engine.trace, |engine.trace|;
    var sampleCount := audio.length;
    ghost var first := [AnalysisBuffer(handle, sampleCount)];
    ghost var rest := DrainPlan(engine, sampleCount);
    ghost var plan := first + rest;
    AttemptedConcat(first, rest, start, engine.failAt);
    var ok, analysisBufferPtr := engine.AnalysisBuffer(handle, sampleCount);
    if !ok {
      assert ThrowsWithin(engine.failAt, start, |first|);
      return Failure(EngineThrew);
    }
    assert !ThrowsWithin(engine.failAt, start, |first|);
    assert ThrowsWithin(engine.failAt, start, |plan|) == ThrowsWithin(engine.failAt, start + 1, |rest|);
    var p32AnalysisBuffer := analysisBufferPtr / 4;
    var channelSampleBuffers := audio.channels;
    r := AnalyzeAndDrain(engine, handle, channelSampleBuffers, sampleCount, p32AnalysisBuffer);
    assert engine.trace == t0 + (first + Attempted(rest, start + 1, engine.failAt)) by {
      AppendAssoc(t0, first, Attempted(rest, start + 1, engine.failAt));
    }
  }

  /** The engine calls of the `try` block: init, then the rest.
      `pEncoderState` is the handle once init has returned one. */
  method RunEngine(engine: Engine, audio: AudioBuffer, quality: Quality)
      returns (r: Result<seq<byte>, EncodeError>, pEncoderState: Option<Handle>)
    requires engine.analysisSampleCount > 0 && audio.Valid() && engine.Fits(|audio.channels|)
    modifies engine, engine.heapF32
    ensures var start := |old(engine.trace)|;
      && engine.trace == old(engine.trace) + Attempted(PlannedCalls(engine, audio, quality), start, engine.failAt)
      && (pEncoderState == if engine.failAt == Some(start) then None else Some(engine.handle))
      && r == EncodeOutcome(engine, audio, quality, start, engine.heapU8[..])
  {
    ghost var start := |engine.trace|;
    ghost var init := EncoderInit(|audio.channels|, audio.sampleRate, quality);
    ghost var rest := [AnalysisBuffer(engine.handle, audio.length)] + DrainPlan(engine, audio.length);
    ghost var planned := PlannedCalls(engine, audio, quality);
    assert planned == [init] + rest;
    AttemptedConcat([init], rest, start, engine.failAt);
    var ok, handle := engine.EncoderInit(|audio.channels|, audio.sampleRate, quality);
    if !ok {
      assert ThrowsWithin(engine.failAt, start, |planned|);
      return Failure(EngineThrew), None;
    }
    pEncoderState := Some(handle);
    ghost var t1 := engine.trace;
    assert t1 == old(engine.trace) + [init] && |t1| == start + 1;
    r := BufferAndDrain(engine, handle, audio);
    assert ThrowsWithin(engine.failAt, start, |planned|) == ThrowsWithin(engine.failAt, start + 1, |rest|);
    assert r == DrainOutcome(engine, audio.length, planned, start, engine.heapU8[..]);
    assert engine.trace == (old(engine.trace) + [init]) + Attempted(rest, start + 1, engine.failAt);
    AppendAssoc(old(engine.trace), [init], Attempted(rest, start + 1, engine.failAt));
  }

  /** The `try` block: the gate, then the engine calls. */
  method EncodeTry(gate: ModuleGate, engine: Engine, audio: AudioBuffer, quality: Quality)
      returns (r: Result<seq<byte>, EncodeError>, pEncoderState: Option<Handle>)
    requires engine.analysisSampleCount > 0 && audio.Valid() && engine.Fits(|audio.channels|)
    modifies gate, engine, engine.heapF32
    ensures gate.State() == GateStep(old(gate.State())).0
    ensures GateStep(old(gate.State())).1 == ImportError ==>
      r == Failure(ModuleImportError) && pEncoderState == None && engine.trace == old(engine.trace)
    ensures GateStep(old(gate.State())).1 != ImportError ==>
      var start := |old(engine.trace)|;
      && engine.trace == old(engine.trace) + Attempted(PlannedCalls(engine, audio, quality), start, engine.failAt)
      && (pEncoderState == if engine.failAt == Some(start) then None else Some(engine.handle))
      && r == EncodeOutcome(engine, audio, quality, start, engine.heapU8[..])
  {
    var gateResult := gate.WaitForModuleInit();
    if gateResult == ImportError {
      return Failure(ModuleImportError), None;
    }
    r, pEncoderState := RunEngine(engine, audio, quality);
  }

  /** `encodeAudioBuffer`: merges the options, runs the `try` block, and in
      `finally` clears the encoder when init returned a handle. Tags are not
      passed to the engine: only the merged quality is used. */
  method EncodeAudioBuffer(gate: ModuleGate, engine: Engine, audio: AudioBuffer, encodeOptions: Option<EncodeOptionsArg>)
      returns (r: Result<seq<byte>, EncodeError>)
    requires engine.analysisSampleCount > 0 && audio.Valid() && engine.Fits(|audio.channels|)
    modifies gate, engine, engine.heapF32
    ensures gate.State() == GateStep(old(gate.State())).0
    ensures GateStep(old(gate.State())).1 == ImportError ==>
      r == Failure(ModuleImportError) && engine.trace == old(engine.trace)
    ensures GateStep(old(gate.State())).1 != ImportError ==>
      var quality, start := MergeOptions(encodeOptions).quality, |old(engine.trace)|;
      && engine.trace == old(engine.trace) + EncodeCalls(engine, audio, quality, start)
      && r == EncodeOutcome(engine, audio, quality, start, engine.heapU8[..])
  {
    var quality := MergeOptions(encodeOptions).quality;
    var pEncoderState;
    r, pEncoderState := EncodeTry(gate, engine, audio, quality);
    assert gate.State() == GateStep(old(gate.State())).0;
    if pEncoderState.Some? {
      engine.Clear(pEncoderState.value);
    }
  }
}
