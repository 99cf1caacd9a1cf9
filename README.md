# sl-web-ogg encode/decode layer, modelled in Dafny

This project models the core of a browser library that encodes an
`AudioBuffer` as an Ogg Vorbis file and reads the comment tags back out of
one. It has three parts:

- a TypeScript driver, `src/index.ts`, which runs a WebAssembly build of a C
  "middle layer" over libogg and libvorbis;
- the C middle layer itself, `c-source/middle-layer.c`;
- a small tag codec, `src/tagUtil.ts`, which carries `name=value` tags across
  the boundary as one tab-separated string.

The model follows that structure, one Dafny module per concern:

| module | file | models |
|---|---|---|
| `Wrappers`, `Memory` | `wrappers.dfy` | `Option` / `Result`, bytes, `memcpy` and `TypedArray.set` as `WriteAt` / `Blit`, the clamping `subarray` |
| `Chunking` | `chunking.dfy` | the "take `min(m, n - offset)` and advance" plan shared by the encode loop and the page reader (`CommentDecoder.ReadFromFollowsChunks` ties the reader to it) |
| `TagUtil` | `tag_util.dfy` | `tagsToBuffer` and `bufferToTags`: validation, rendering, `join`/`split`, reading a C string back |
| `Encoder` | `encoder.dfy` | `encodeAudioBuffer` and its helpers: the readiness gate, the option merge, the per-chunk copy into the engine's heap, the drain, and the `finally` cleanup, over a mock engine that records every call and may throw at any one of them |
| `MiddleLayer` | `middle_layer.dfy` | the encode side of the C layer: the `EncoderState` output buffer grown page by page with `realloc`, its hand-over, the `strtok`-based `_addTags`, and the comment list and header pages of `initEncoder` |
| `CommentDecoder` | `comment_decoder.dfy` | the decode side of the C layer: `_packComments`, the bounded reader `_readNextPage`, and the `decodeComments` state machine with its cleanup |
| `TagParsers` | `tag_parsers.dfy` | the JavaScript and C readers of the tag string side by side, and the path from the tags written at encode time to the tags read back |

libogg and libvorbis are not modelled. On the encode side, the pages they
hand out are parameters. On the decode side, what `decodeComments` relies on
from them is a `CommentDecoder.OggLib` value:

- how many complete pages the bytes written so far hold;
- how many packets the pages read so far hold;
- which of `ogg_stream_init`, `ogg_stream_pagein` and
  `vorbis_synthesis_headerin` fail;
- the comment list the comment header carries.

Similarly, the WebAssembly engine seen from TypeScript is `Encoder.Engine`.
It is a class whose methods are the engine exports `encodeAudioBuffer`
calls. It appends each call to a `trace` and throws at the call whose trace
position is `failAt`. Its heap views `HEAPU32`, `HEAPF32` and `HEAPU8` are
arrays.

Notes on the code as written:

- The analysis buffer is obtained once, before the chunk loop
  (`src/index.ts:84`).
- The encoded bytes are drained once, after the loop (`src/index.ts:95`).
  No chunk is followed by a drain, and no zero-sample call flushes the
  encoder at the end.
- When zero bytes are ready at that drain, `_getOggBytes` throws 'Failed
  to encode audio buffer.' (`src/index.ts:51`).
- `tags` in the options is merged but never passed to the engine. Only the
  quality reaches `_encoder_init` (`src/index.ts:23`, `77`). The C side's
  tag string argument is modelled in `MiddleLayer.InitEncoder` on its own.
- The readiness gate's promise executor runs
  `Module.onRuntimeInitialized = resolve()` (`src/index.ts:13`). This calls
  `resolve` at once, so the promise is resolved before the runtime has
  announced anything. Concurrent callers still share a single promise.
  The model keeps only the sharing; the early resolution is this note.

## Model

| member | source | states |
|---|---|---|
| `Memory.WriteAt` | src/index.ts:44 | writing `src` at `at` changes exactly the positions from `at` on, as many as `src` holds, to `src`'s elements and keeps every other element and the length |
| `Memory.Subarray` | src/index.ts:53 | `subarray(b, e)` is the slice `[b, e)` when both are in range, the rest from `b` on when only `e` lies past the length, and empty when `b` lies at or past the length or `e` before `b` |
| `Memory.Blit` | c-source/middle-layer.c:57 | the element-by-element copy leaves the target equal to `WriteAt` of its old contents |
| `Chunking.ChunksBounded` | src/index.ts:88-91 | every chunk of the loop is non-empty, at most the ceiling, and inside `[from, n)` |
| `Chunking.ChunksContiguous` | src/index.ts:87-91 | the chunks tile `[from, n)`: the first starts at `from`, each starts where the previous ended, the last ends at `n`, and there are none exactly when nothing is left |
| `Chunking.ChunksSum` | src/index.ts:87-91 | the chunk sizes add up to the number of samples covered |
| `Chunking.ChunksCount` | src/index.ts:88-91 | the number of chunks is `ceil((n - from) / m)`: `k·m` covers the input, `(k-1)·m` does not, and `k = 0` only for an empty input |
| `TagUtil.IndexOf` | src/tagUtil.ts:23 | the result is -1 exactly when the character is absent, and otherwise the position of its first occurrence |
| `TagUtil.IndexOfAfterPrefix` | src/tagUtil.ts:23-27 | in `a + [c] + b` with no `c` in `a`, the first `c` is the one right after `a` |
| `TagUtil.Split` | src/tagUtil.ts:21 | `split` yields at least one piece, no piece holds the separator, and joining the pieces gives the string back |
| `TagUtil.SplitCount` | src/tagUtil.ts:21 | `split` yields one piece more than there are separators |
| `TagUtil.SplitJoin` | src/tagUtil.ts:13-21 | `split` undoes `join` when no part holds the separator |
| `TagUtil.CString` | src/tagUtil.ts:19 | reading a foreign string back stops at the first NUL: no NUL in the result, the whole string when it holds none, and a prefix followed by the NUL otherwise |
| `TagUtil.CheckTag` | src/tagUtil.ts:7-9 | no error exactly for a valid tag; otherwise the first failing check in source order (`=` in the name, tab in the name, tab in the value) with the offending text |
| `TagUtil.FirstError` | src/tagUtil.ts:6-11 | no error exactly when every tag is valid; otherwise the error of some tag all of whose predecessors are valid |
| `TagUtil.RenderAll` | src/tagUtil.ts:12 | one `name=value` string per tag, in order |
| `TagUtil.TagsToBuffer` | src/tagUtil.ts:3-15 | no tags gives no buffer (`null`); an invalid tag fails with the first violation; otherwise the buffer splits on tabs into exactly the rendered tags, in order |
| `TagUtil.ParseTag` | src/tagUtil.ts:22-28 | a segment is split at its first `=` (the name holds no `=` and rendering gives the segment back); a segment without `=` is a name with an empty value |
| `TagUtil.ParseAll` | src/tagUtil.ts:22-29 | one tag per segment, each parsed in place |
| `TagUtil.BufferToTags` | src/tagUtil.ts:17-30 | no buffer, or one that reads back empty, gives no tags; otherwise tag `i` is segment `i` of the string read up to the first NUL, split on tabs, parsed at its first `=`, so there is one tag more than there are tabs; no tag holds a reserved character where it may not |
| `TagUtil.ParseRender` | src/tagUtil.ts:22-28 | parsing a rendered valid tag gives the tag back |
| `TagUtil.RoundTrip` | src/tagUtil.ts:3-30 | every valid tag list without NULs passes validation and comes back from `bufferToTags(tagsToBuffer(tags))` unchanged and in order |
| `TagUtil.JoinHasNoNul` | src/tagUtil.ts:13-14 | joining parts with no NUL by a non-NUL separator gives a string without NUL |
| `TagUtil.NulBreaksRoundTrip` | src/tagUtil.ts:14-19 | a value holding a NUL passes validation, but the tag reads back with the value cut at the NUL |
| `Encoder.GateSingleFlight` | src/index.ts:8-16 | however many callers come, at most one promise is created (none when initialized, when the flag is missing or when one exists); callers throw when the flag is missing and return at once when initialized |
| `Encoder.GateEarlyCallersShare` | src/index.ts:11-15 | before initialization the first caller creates the promise, every later caller reuses it, and exactly one promise exists |
| `Encoder.ReusersReuse` | src/index.ts:11 | while a promise exists, every caller reuses it |
| `Encoder.ModuleGate.constructor` | src/index.ts:7 | no promise exists yet |
| `Encoder.ModuleGate.WaitForModuleInit` | src/index.ts:8-16 | the new gate state and the outcome are those of one gate step from the old state |
| `Encoder.TwoEarlyCallers` | src/index.ts:11-15 | two callers before initialization: the first creates the promise, the second reuses it, and one promise exists |
| `Encoder.MergeOptions` | src/index.ts:65-77 | no options gives the defaults; a field left out keeps its default (quality 0.5, no tags); a field present but `undefined` overwrites the default with `undefined`; a field set wins |
| `Encoder.Engine.constructor` | src/index.ts:3 | the engine starts with no call made, no byte ready, no process call counted and no float view logged |
| `Encoder.Engine.EncoderInit` | src/index.ts:23 | the call is recorded; unless it throws, the header pages become the ready bytes |
| `Encoder.Engine.AnalysisBuffer` | src/index.ts:27 | the call is recorded and the table address is returned; nothing becomes ready |
| `Encoder.Engine.Process` | src/index.ts:46 | the call is recorded and the float view it finds is logged; unless it throws, the bytes flushed by this particular call (an input, often none) become ready and the count of successful calls grows by one |
| `Encoder.Engine.DataLen` | src/index.ts:50 | the call is recorded and the count of ready bytes is returned unchanged |
| `Encoder.Engine.TransferData` | src/index.ts:52 | the call is recorded; unless it throws, the data position is returned and the ready count drops to 0 |
| `Encoder.Engine.Clear` | src/index.ts:98 | the call is recorded |
| `Encoder.ChannelBases` | src/index.ts:43 | channel `c`'s float position is entry `p32 + c` of the 32-bit view shifted right by 2 |
| `Encoder.StagedInside` | src/index.ts:41-45 | inside the region of a staged channel that no other region overlaps, the heap holds that channel's samples |
| `Encoder.StagedOutside` | src/index.ts:41-45 | outside every channel's region the heap keeps its old value |
| `Encoder.StagedRegions` | src/index.ts:39-45 | with non-overlapping regions, after staging each region holds exactly its channel's samples `[from, from+count)` and nothing else changes |
| `Encoder.StageChannel` | src/index.ts:42-44 | one iteration of the channel loop, with the position read from the address table, extends the staged heap by one more channel |
| `Encoder.StagedSawChunk` | src/index.ts:41-45 | with non-overlapping regions, staging leaves every channel's chunk `[from, from+count)` in that channel's region |
| `Encoder.StageChunk` | src/index.ts:41-45 | the channel loop leaves the heap equal to the old heap with every channel's samples `[from, from+count)` written at its position, in channel order |
| `Encoder.AnalyzeSampleBufferChunk` | src/index.ts:39-47 | the heap is the old heap with every channel's chunk written at its position, in channel order; then exactly one process call for the chunk's size is made, which finds that heap; with non-overlapping regions it holds every channel's chunk |
| `Encoder.GetOggBytes` | src/index.ts:49-54 | a length call that throws fails; zero bytes fails with 'Failed to encode audio buffer.' before any transfer; otherwise the transfer is made and exactly the ready bytes at its position are copied out |
| `Encoder.ProcessCallsConcat` | src/index.ts:87-93 | the process calls of two runs of chunks are those of the first run followed by those of the second |
| `Encoder.SawChunksEach` | src/index.ts:87-93 | the log of views, stated view by view from the last back, gives every process call its own chunk |
| `Encoder.AnalyzeNextChunk` | src/index.ts:88-91 | one turn of the loop: the chunk has `min(M, n - from)` samples, at least one; it extends the chunks done, and the plan from the new offset is the rest; one process call is recorded and its view logged; the turn fails exactly when that call throws; otherwise the flushed bytes and the call count advance; with non-overlapping regions the view holds the chunk |
| `Encoder.ChunkLoopStops` | src/index.ts:87-93 | where the loop stops: the process calls made are the plan's up to and including the first that throws, and all of them when none throws |
| `Encoder.Attempted` | src/index.ts:79-97 | the calls made from a plan are the whole plan, or its prefix up to and including the call that throws |
| `Encoder.EncodeClearsOnce` | src/index.ts:97-99 | the first call is init; `_encoder_clear` is made exactly once, as the last call, whenever init returned, whether or not a later call threw, and never when init threw |
| `Encoder.ProcessCallsCoverInput` | src/index.ts:87-93 | the planned calls after init and the analysis buffer are one process call per chunk; the chunks are non-empty, at most the ceiling, add up to the sample count, and number `ceil(n / ANALYSIS_SAMPLE_COUNT)` |
| `Encoder.AnalyzeAllChunks` | src/index.ts:87-93 | the chunks done and the rest tile the chunk plan; one process call per chunk done is made, each logging the float view it found, and with non-overlapping regions view `j` holds chunk `j` of every channel; when no call throws every chunk is done and the bytes flushed by each call are ready; otherwise the loop stops right after the call that throws |
| `Encoder.DrainChunked` | src/index.ts:95 | after a loop in which no call threw, the drain makes the drain plan's remaining calls up to the first that throws, and returns the drain outcome |
| `Encoder.DrainAfterChunks` | src/index.ts:49-54 | `_getOggBytes`'s four outcomes, after the chunk calls, are the tail of the drain plan and the drain outcome |
| `Encoder.AnalyzeAndDrain` | src/index.ts:87-95 | the chunk loop then the drain make the drain plan's calls up to the first that throws, and return the drain outcome |
| `Encoder.BufferAndDrain` | src/index.ts:84-95 | after init, the calls made are one analysis buffer call then the chunk and drain calls, stopping at the first that throws; the result is the drain outcome |
| `Encoder.RunEngine` | src/index.ts:83-95 | the calls made are init and then the planned calls, stopping at the first that throws; the handle is known exactly when init returned; the result is the encode outcome |
| `Encoder.EncodeTry` | src/index.ts:79-96 | a missing module flag fails before any engine call; otherwise the calls made are init, one analysis buffer, the chunks and the drain, up to the first that throws; the handle is known exactly when init returned; the result is the encode outcome |
| `Encoder.EncodeAudioBuffer` | src/index.ts:75-100 | the merged quality is used; the calls made are those of the `try` block followed by one clear when init returned; the result is the encode outcome |
| `MiddleLayer.Realloc` | c-source/middle-layer.c:56 | a block of at least the requested size keeping the old bytes, as many as both hold: the old block itself when the allocator keeps it in place, otherwise a fresh block of exactly that size |
| `MiddleLayer.WritePage` | c-source/middle-layer.c:57-60 | the two `memcpy` calls leave the buffer as the page's header followed by its body written at the offset, all else kept |
| `MiddleLayer.TokenStart` | c-source/middle-layer.c:67 | the scan for a token start skips only tabs and stops at the end or at the first non-tab |
| `MiddleLayer.TokenEnd` | c-source/middle-layer.c:67 | the scan for a token end stops at the end or at a tab |
| `MiddleLayer.TokenEndHasNoTab` | c-source/middle-layer.c:67 | no tab lies inside a token |
| `MiddleLayer.TokensAreNonEmptyWithoutTabs` | c-source/middle-layer.c:67-75 | `strtok` never returns an empty token nor one holding a tab |
| `MiddleLayer.Strtok` | c-source/middle-layer.c:75 | one call returns the next token and continues after it (or returns none when only tabs are left), so the remaining tokens are that token followed by the tokens from the new position |
| `MiddleLayer.TagPairs` | c-source/middle-layer.c:68-76 | at most one tag per token, and no tag name holds `=` |
| `MiddleLayer.TagPairsRenderTokens` | c-source/middle-layer.c:68-76 | the comments added, rendered, are exactly the tokens holding `=`, in order |
| `MiddleLayer.JoinAtFirstEquals` | c-source/middle-layer.c:69-73 | cutting a token at its first `=` and adding the tag `name=value` gives the token back |
| `MiddleLayer.TokensOfOneSegment` | c-source/middle-layer.c:67-75 | a string without tabs is one token, or none when it is empty |
| `MiddleLayer.EncoderState.constructor` | c-source/middle-layer.c:86 | the comment list is empty and the encoded data buffer is `NULL` with length 0 |
| `MiddleLayer.EncoderState.CommentAddTag` | c-source/middle-layer.c:73 | `tag=value` is appended to the comment list and nothing else changes |
| `MiddleLayer.EncoderState.AddEncoderData` | c-source/middle-layer.c:52-61 | an empty page with no data pending changes nothing; otherwise the encoded data becomes the old data followed by the page's header and body; when `realloc` keeps the block, that block is written over from the old length on; when it moves, the old block is left as it was |
| `MiddleLayer.EncoderState.AddPages` | c-source/middle-layer.c:99-101 | adding the pages libogg hands out one by one appends all their bytes in order, whatever `realloc` does with the block |
| `MiddleLayer.EncoderState.GetEncodedDataLen` | c-source/middle-layer.c:138-140 | the length returned is the number of encoded bytes not yet transferred |
| `MiddleLayer.EncoderState.TransferEncodedData` | c-source/middle-layer.c:143-146 | the buffer is handed over holding the untransferred bytes, and the state then holds no bytes, so the next page is written from offset 0 |
| `MiddleLayer.EncoderState.ReuseAfterTransfer` | c-source/middle-layer.c:143-146 | when `realloc` keeps the block, the block handed out is the one the next page is written into, so its first bytes become that page |
| `MiddleLayer.EncoderState.AddTags` | c-source/middle-layer.c:63-78 | no tag string adds nothing; otherwise the copy ends at the first NUL, and the comment list grows by one `name=value` per token of the copy holding `=`, split at its first `=`, in order; the encoded data is untouched |
| `MiddleLayer.EncoderState.AddTokens` | c-source/middle-layer.c:67-76 | the `strtok` loop adds, in order, each token holding `=`, split at its first `=`, and nothing else |
| `MiddleLayer.InitEncoder` | c-source/middle-layer.c:81-103 | the comment list is `ENCODER=sl-web-ogg` followed by the tags parsed from the tag string up to its first NUL, and the encoded data is exactly the header pages |
| `MiddleLayer.AddedCommentsAreTokens` | c-source/middle-layer.c:68-76 | the comments `_addTags` adds are the tokens holding `=`, and no added name holds `=`, so a value keeps later `=` literally |
| `CommentDecoder.PackedLength` | c-source/middle-layer.c:165-170 | the counting loop sizes the buffer for exactly what the writing loop writes, `Σ(len + 1)` |
| `CommentDecoder.PackedUpToIsJoin` | c-source/middle-layer.c:171-177 | before the last comment, the bytes written are the comments so far joined by tabs, then a tab |
| `CommentDecoder.PackedIsJoin` | c-source/middle-layer.c:171-177 | for at least one comment, the buffer is the comments separated by tabs with a NUL after the last |
| `CommentDecoder.PackedTerminatedIffNonEmpty` | c-source/middle-layer.c:164-180 | the buffer ends in a NUL exactly when there is at least one comment |
| `CommentDecoder.PackComments` | c-source/middle-layer.c:164-180 | the buffer has the counted length and holds each comment followed by a tab, or by a NUL after the last |
| `CommentDecoder.PackCommentsTerminated` | c-source/middle-layer.c:164-180 | the buffer is always the tab-joined comments followed by a NUL, one NUL alone for no comments |
| `CommentDecoder.ReadFrom` | c-source/middle-layer.c:153-161 | the copy loop stops at the first complete page, past the start and not past the end, having written exactly the bytes read; or it writes the whole rest without finding a page |
| `CommentDecoder.NextPage` | c-source/middle-layer.c:148-162 | a page already in the sync state is returned without reading; otherwise it copies until a page completes, or returns `NULL` with everything written and no page left |
| `CommentDecoder.FirstPageStep` | c-source/middle-layer.c:159 | the step named completes a page and no earlier step does; none is named when no step completes one |
| `CommentDecoder.ReadFromFollowsChunks` | c-source/middle-layer.c:153-160 | the copy loop takes the steps of the chunk plan with 8192-byte steps: it stops at the end of the first step after which a page is complete, and returns `NULL` when no step completes one |
| `CommentDecoder.ReadFromSteps` | c-source/middle-layer.c:153-160 | every copy is a full 8192-byte step except the one that reaches the end |
| `CommentDecoder.OggSync.constructor` | c-source/middle-layer.c:194 | the sync state starts with no bytes written and no page taken out |
| `CommentDecoder.OggSync.Pageout` | c-source/middle-layer.c:151 | a page is taken out exactly when the bytes written hold one more complete page |
| `CommentDecoder.OggSync.Write` | c-source/middle-layer.c:154-157 | the bytes are appended to what was written |
| `CommentDecoder.ReadNextPage` | c-source/middle-layer.c:148-162 | the position returned and the sync state left are those of `NextPage` |
| `CommentDecoder.HeaderPackets` | c-source/middle-layer.c:211-218 | the packet loop ends with no packet left (fewer than two read), at a packet libvorbis rejects, or at the second packet |
| `CommentDecoder.ReadHeaderPackets` | c-source/middle-layer.c:211-218 | the loop's outcome is `HeaderPackets` |
| `CommentDecoder.Scan` | c-source/middle-layer.c:201-220 | the read loop ends with `FOUND_COMMENT` exactly when two packets were read, never in `NEW`, and in `STREAM_INITIALIZED` or later only after a page was read |
| `CommentDecoder.FindComments` | c-source/middle-layer.c:194-221 | the state and counters left at `cleanup:` are those of `Decode` over the whole file |
| `CommentDecoder.Cleanup` | c-source/middle-layer.c:225-231 | the stream state is cleared exactly when it was initialised; the sync state, comment and info always are |
| `CommentDecoder.DecodeComments` | c-source/middle-layer.c:183-233 | a buffer is returned exactly when the comment header was read, and then it is the packed comment list; cleanup as above |
| `CommentDecoder.DecodeCommentsDrained` | c-source/middle-layer.c:183-233 | as `DecodeComments`, with the loop draining the sync state and the buffer always NUL-terminated |
| `CommentDecoder.SmallFileMissesComments` | c-source/middle-layer.c:199-221 | a two-page file read whole by the first `_readNextPage` ends in `STREAM_INITIALIZED` as written, and in `FOUND_COMMENT` when the sync state is drained |
| `CommentDecoder.DrainedScanFindsComments` | c-source/middle-layer.c:201-220 | from any point the drained loop can reach, with no failing call and both header packets in the file's pages, the loop ends at the comment header |
| `CommentDecoder.DrainedFindsComments` | c-source/middle-layer.c:183-221 | with the sync state drained, any file whose pages hold both header packets and on which no library call fails yields its comments |
| `TagParsers.TokensOfJoin` | c-source/middle-layer.c:67-75 | `strtok` gives back the parts of a tab-join when none is empty or holds a tab |
| `TagParsers.TagPairsOfRendered` | c-source/middle-layer.c:68-76 | `_addTags` splitting rendered valid tags gives the tags back |
| `TagParsers.CReadsWhatJavaScriptWrites` | c-source/middle-layer.c:63-78 | for valid tags without NUL, `tagsToBuffer` succeeds, gives no buffer exactly for no tags, and `_addTags` reads its buffer back as the tags, in order |
| `TagParsers.CStopsAtNul` | c-source/middle-layer.c:65-67 | `_addTags` on `a=b`, a NUL and `c` adds only `a=b`, because `strlen` and `strcpy` stop at the NUL |
| `TagParsers.NulCutsBothReaders` | src/tagUtil.ts:14-19 | a valid tag whose value holds a NUL is written as a buffer that both `bufferToTags` and `_addTags` read as the tag cut at the NUL |
| `TagParsers.SegmentWithoutEqualsDiverges` | src/tagUtil.ts:24 | a segment without `=` is a tag with an empty value for `bufferToTags` and no tag at all for `_addTags` |
| `TagParsers.RenderedTag` | src/tagUtil.ts:12 | a rendered valid tag is non-empty, has `=` right after the name, holds no tab, and holds a NUL only if its parts do |
| `TagParsers.JavaScriptKeepsEmptySegment` | src/tagUtil.ts:21-29 | `bufferToTags` reads an empty segment between two tags as a third, empty tag |
| `TagParsers.TokensAroundEmptySegment` | c-source/middle-layer.c:67-75 | `strtok` skips the empty segment between two tokens |
| `TagParsers.CSkipsEmptySegment` | c-source/middle-layer.c:67-76 | `_addTags` reads two valid NUL-free tags with an empty segment between them as just the two |
| `TagParsers.EmptySegmentDiverges` | c-source/middle-layer.c:63-78 | on the same string with an empty segment, the two readers disagree: three tags in JavaScript, two in C |
| `TagParsers.PackedCommentsReadBack` | src/tagUtil.ts:17-30 | the terminated buffer `decodeComments` packs reads back in JavaScript as one tag per comment, split at its first `=` |
| `TagParsers.TerminatedTagsReadBack` | src/tagUtil.ts:17-30 | clean tags, rendered, tab-joined and NUL-terminated, read back as themselves |
| `TagParsers.EncoderCommentsReadBack` | c-source/middle-layer.c:87-88 | the comment list `initEncoder` writes, packed with its terminator, reads back as `ENCODER=sl-web-ogg` followed by the caller's tags |

## Left out

- libogg and libvorbis: the pages, packets, serial numbers and header contents they produce are parameters (`Page` lists, the `OggLib` oracle); `vorbis_info_init`, `vorbis_encode_init_vbr`, `vorbis_analysis_*`, `vorbis_bitrate_*` and the `ogg_stream_*` calls of the encoder are not modelled, because they are a foreign library.
- `processEncoding` and `createAnalysisBuffer` in C: their loops do no more than hand libvorbis's output pages to `_addEncoderData`, which `MiddleLayer.EncoderState.AddPages` models; seen from TypeScript, the bytes each successful process call makes ready are an input of the mock engine (`Encoder.Engine.flushed`, one amount per call).
- `clearEncoder`: it only frees; `free` and memory reclamation are not modelled, and `Encoder.Engine.Clear` only records the call.
- `srand(time(NULL))` and `rand()` for the stream serial number: clock and randomness, not modelled.
- The three heap views are separate arrays: that `HEAPU32`, `HEAPF32` and `HEAPU8` alias one memory, and that a copy into float samples could overwrite the address table, is not modelled.
- `Encoder.AnalyzeSampleBufferChunk`: the byte-address shift `>> 2` is modelled as division by 4, so it is wrong only for addresses of 2^31 or more, which a 32-bit WebAssembly heap of this size does not reach; lengths are unbounded integers (no `long`/`int` overflow).
- `MiddleLayer.Realloc`: does not model `realloc` or `malloc` returning `NULL`; a block is kept in place only when it already holds the new length (growth in place is not modelled), and the old block after a move is not freed, so the model cannot show a read of freed memory.
- `Encoder.AnalyzeAllChunks`: that each process call's view holds its chunk is stated only for address tables whose channel regions do not overlap; with overlapping regions later channels overwrite earlier ones, which `Encoder.StageChunk` still states exactly.
- `CommentDecoder.OggSync.Pageout`: a return of -1 (a gap in the data) is treated like 0, as `decodeComments` itself does, since it only tests for 1.
- `_yield` and the event loop: `await _yield()` changes nothing the model tracks; interleaving of concurrent `encodeAudioBuffer` calls is not modelled, and the gate is modelled as a sequence of calls.
- `_getChannelSampleBuffers` is the identity on the channel list; `Blob`, `AudioBuffer.getChannelData` and `console.log` of line 5 are host objects and output, left out.
- Float32 samples are `real` values that are only copied; quality and sample rate are passed through unexamined.
- `Module.allocateUTF8` / `UTF8ToString` are modelled on characters, not UTF-8 bytes: the buffer holds the string, and reading stops at the first NUL.

## Findings

| source | as written | input that shows it | evidently intended | confidence | as-written member | corrected member |
|---|---|---|---|---|---|---|
| c-source/middle-layer.c:164-180 | with no comments, `_packComments` allocates `malloc(0)` and writes nothing, so the buffer returned has no terminating NUL | a file whose comment header holds no user comments | a NUL-terminated string in every case (the file's header comment promises one), the empty string for no comments | not executed | `CommentDecoder.PackedTerminatedIffNonEmpty` | `CommentDecoder.PackCommentsTerminated` |
| c-source/middle-layer.c:201 | the read loop stops once the read position reaches the end, even while the sync state still holds pages; a file of at most 8192 bytes is copied whole by the first `_readNextPage`, which returns only the first page (the identification header), so the comment page is never read and `decodeComments` returns `NULL` | a two-page file of 8192 bytes or fewer, first page holding packet 1 and second packet 2 (`SmallFileMissesComments`) | keep reading pages until `_readNextPage` returns `NULL`, so pages already buffered are read | not executed | `CommentDecoder.SmallFileMissesComments` | `CommentDecoder.DrainedFindsComments` |
