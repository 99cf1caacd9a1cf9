/** The decode side of c-source/middle-layer.c: `_packComments`, which packs
    the comment list into one buffer for the JavaScript caller; the bounded
    reader `_readNextPage`, which feeds the file to libogg's sync layer in
    steps of at most 8192 bytes; and `decodeComments`, the state machine that
    reads pages until two header packets have been seen and then cleans up
    what it set up.

    libogg and libvorbis are not modelled. What the code relies on from them
    is an `OggLib` value: how many pages the bytes written so far hold, how
    many packets the pages read so far hold, and which calls fail. */
module CommentDecoder {
  import opened Wrappers
  import opened Memory
  import opened Chunking
  import TagUtil

  // ---------------------------------------------------------------------
  // `_packComments` (c-source/middle-layer.c:164-180)
  // ---------------------------------------------------------------------

  /** What `_packComments` writes for comment `j`: the comment followed by a
      tab, or by a NUL when it is the last one. */
  function Piece(comments: seq<string>, j: nat): string
    requires j < |comments|
  {
    comments[j] + [if j == |comments| - 1 then TagUtil.NUL else TagUtil.TAB]
  }

  /** The bytes `_packComments` has written after its first `i` iterations. */
  function PackedUpTo(comments: seq<string>, i: nat): string
    requires i <= |comments|
  {
    if i == 0 then [] else PackedUpTo(comments, i - 1) + Piece(comments, i - 1)
  }

  /** The buffer `_packComments` returns. */
  function Packed(comments: seq<string>): string {
    PackedUpTo(comments, |comments|)
  }

  /** `packedLength` after the first `i` iterations of the counting loop:
      each comment's length plus one. */
  function PackedLengthUpTo(comments: seq<string>, i: nat): nat
    requires i <= |comments|
  {
    if i == 0 then 0 else PackedLengthUpTo(comments, i - 1) + |comments[i - 1]| + 1
  }

  /** The counting loop sizes the buffer for exactly what the writing loop
      writes: `sum(len_i + 1)` bytes. */
  lemma {:induction false} PackedLength(comments: seq<string>, i: nat)
    requires i <= |comments|
    ensures |PackedUpTo(comments, i)| == PackedLengthUpTo(comments, i)
  {
    if i > 0 {
      PackedLength(comments, i - 1);
    }
  }

  lemma {:induction false} PackedLengthGrows(comments: seq<string>, i: nat, j: nat)
    requires i <= j <= |comments|
    ensures PackedLengthUpTo(comments, i) <= PackedLengthUpTo(comments, j)
    decreases j
  {
    if i < j {
      PackedLengthGrows(comments, i, j - 1);
    }
  }

  /** Joining one more part adds a separator and the part. */
  lemma {:induction false} JoinSnoc(parts: seq<string>, x: string, sep: char)
    requires parts != []
    ensures TagUtil.Join(parts + [x], sep) == TagUtil.Join(parts, sep) + [sep] + x
  {
    if |parts| == 1 {
      assert (parts + [x])[1..] == [x];
    } else {
      JoinSnoc(parts[1..], x, sep);
      assert (parts + [x])[1..] == parts[1..] + [x];
    }
  }

  /** Before the last comment, what has been written is the comments so far
      joined by tabs, followed by a tab. */
  lemma {:induction false} PackedUpToIsJoin(comments: seq<string>, i: nat)
    requires 0 < i < |comments|
    ensures PackedUpTo(comments, i) == TagUtil.Join(comments[..i], TagUtil.TAB) + [TagUtil.TAB]
  {
    if i == 1 {
      assert PackedUpTo(comments, 0) == [];
    } else {
      PackedUpToIsJoin(comments, i - 1);
      assert comments[..i] == comments[..i - 1] + [comments[i - 1]];
      JoinSnoc(comments[..i - 1], comments[i - 1], TagUtil.TAB);
    }
  }

  /** For at least one comment, the packed buffer is the comments in order,
      separated by tabs, with a NUL after the last. */
  lemma PackedIsJoin(comments: seq<string>)
    requires comments != []
    ensures Packed(comments) == TagUtil.Join(comments, TagUtil.TAB) + [TagUtil.NUL]
  {
    var n := |comments|;
    assert PackedUpTo(comments, 0) == [];
    if n > 1 {
      PackedUpToIsJoin(comments, n - 1);
      assert comments == comments[..n - 1] + [comments[n - 1]];
      JoinSnoc(comments[..n - 1], comments[n - 1], TagUtil.TAB);
    }
  }

  /** The buffer ends in a NUL exactly when there is at least one comment:
      with none, nothing at all is written. */
  lemma PackedTerminatedIffNonEmpty(comments: seq<string>)
    ensures (|Packed(comments)| > 0 && Packed(comments)[|Packed(comments)| - 1] == TagUtil.NUL) <==> comments != []
  {
    if comments != [] {
      PackedIsJoin(comments);
    }
  }

  /** `_packComments`: counts `sum(len_i + 1)`, allocates that many bytes and
      writes each comment followed by a tab, or by a NUL after the last. */
  method PackComments(comments: seq<string>) returns (packed: array<char>)
    ensures packed.Length == PackedLengthUpTo(comments, |comments|)
    ensures packed[..] == Packed(comments)
  {
    var packedLength := 0;
    var i := 0;
    while i < |comments|
      invariant 0 <= i <= |comments|
      invariant packedLength == PackedLengthUpTo(comments, i)
    {
      packedLength := packedLength + |comments[i]| + 1;
      i := i + 1;
    }
    packed := new char[packedLength](_ => TagUtil.NUL);
    var pWrite := 0;
    var commentI := 0;
    while commentI < |comments|
      invariant 0 <= commentI <= |comments|
      invariant packed.Length == PackedLengthUpTo(comments, |comments|)
      invariant pWrite == PackedLengthUpTo(comments, commentI) <= packed.Length
      invariant packed[..pWrite] == PackedUpTo(comments, commentI)
    {
      var comment := comments[commentI];
      PackedLengthGrows(comments, commentI + 1, |comments|);
      PackedLength(comments, commentI);
      ghost var before := packed[..pWrite];
      Blit(packed, pWrite, comment);
      assert packed[..pWrite] == before;
      pWrite := pWrite + |comment|;
      assert packed[..pWrite] == before + comment;
      packed[pWrite] := if commentI == |comments| - 1 then TagUtil.NUL else TagUtil.TAB;
      pWrite := pWrite + 1;
      assert packed[..pWrite] == before + Piece(comments, commentI);
      commentI := commentI + 1;
    }
    PackedLength(comments, |comments|);
    assert packed[..] == packed[..pWrite];
  }

  /** `_packComments` with the terminator the reader needs in every case:
      one NUL byte when there are no comments. */
  method PackCommentsTerminated(comments: seq<string>) returns (packed: array<char>)
    ensures packed[..] == TagUtil.Join(comments, TagUtil.TAB) + [TagUtil.NUL]
  {
    if |comments| == 0 {
      packed := new char[1](_ => TagUtil.NUL);
    } else {
      packed := PackComments(comments);
      PackedIsJoin(comments);
    }
  }

  // ---------------------------------------------------------------------
  // The oracle for libogg and libvorbis
  // ---------------------------------------------------------------------

  /** What `decodeComments` observes of libogg and libvorbis.
      - `pagesIn(b)`: the number of complete pages in the bytes `b` written
        to the sync state so far (`ogg_sync_pageout` returns 1 while fewer
        pages than that have been taken out);
      - `streamInitFails`: whether `ogg_stream_init` fails;
      - `pageinFails(k)`: whether `ogg_stream_pagein` rejects page `k`;
      - `packetsIn(k)`: the number of packets the first `k` pages hold
        (`ogg_stream_packetout` returns 1 while fewer have been taken out);
      - `headerinFails(j)`: whether `vorbis_synthesis_headerin` rejects
        packet `j`;
      - `comments`: the comment list the comment header fills in. */
  datatype OggLib = OggLib(
    pagesIn: seq<byte> -> nat,
    streamInitFails: bool,
    pageinFails: nat -> bool,
    packetsIn: nat -> nat,
    headerinFails: nat -> bool,
    comments: seq<string>)

  // ---------------------------------------------------------------------
  // `_readNextPage` (c-source/middle-layer.c:148-162)
  // ---------------------------------------------------------------------

  /** `BUFFER_SIZE` of `_readNextPage`. */
  const BUFFER_SIZE: nat := 8192

  /** Where the reader stopped (`None` for `NULL`), and the sync state it
      leaves: all bytes written to it, and the number of pages taken out. */
  datatype ReadResult = ReadResult(next: Option<nat>, buffered: seq<byte>, taken: nat)

  /** The copy loop of `_readNextPage` from `pos` on: write the next
      `min(BUFFER_SIZE, |file| - pos)` bytes, stop at the first page. */
  function ReadFrom(lib: OggLib, file: seq<byte>, pos: nat, buffered: seq<byte>, taken: nat): (r: ReadResult)
    requires pos <= |file|
    ensures r.next.Some? ==>
      pos < r.next.value <= |file| && r.taken == taken + 1 && r.buffered == buffered + file[pos..r.next.value]
    ensures r.next.None? ==>
      r.taken == taken && r.buffered == buffered + file[pos..] && (pos < |file| ==> lib.pagesIn(r.buffered) <= taken)
    decreases |file| - pos
  {
    if pos == |file| then ReadResult(None, buffered, taken)
    else
      var n := Min(BUFFER_SIZE, |file| - pos);
      var b := buffered + file[pos..pos + n];
      if taken < lib.pagesIn(b) then ReadResult(Some(pos + n), b, taken + 1)
      else
        var r := ReadFrom(lib, file, pos + n, b, taken);
        assert r.next.Some? ==> b + file[pos + n..r.next.value] == buffered + file[pos..r.next.value];
        assert b + file[pos + n..] == buffered + file[pos..];
        r
  }

  /** `_readNextPage`: a page already in the sync state is returned without
      reading; otherwise it copies until a page is complete, and returns
      `NULL` when the input runs out first. */
  function NextPage(lib: OggLib, file: seq<byte>, pos: nat, buffered: seq<byte>, taken: nat): (r: ReadResult)
    requires pos <= |file|
    ensures r.next.Some? ==>
      pos <= r.next.value <= |file| && r.taken == taken + 1 && r.buffered == buffered + file[pos..r.next.value]
    ensures r.next.Some? && r.next.value == pos ==> taken < lib.pagesIn(buffered)
    ensures r.next.None? ==>
      r.taken == taken && r.buffered == buffered + file[pos..] && lib.pagesIn(r.buffered) <= taken
  {
    if taken < lib.pagesIn(buffered) then ReadResult(Some(pos), buffered, taken + 1)
    else ReadFrom(lib, file, pos, buffered, taken)
  }

  /** Every copy is a full `BUFFER_SIZE` step except the one that reaches the
      end of the input: the reader stops either at the end or a whole number
      of steps after where it started, never past the end. */
  lemma {:induction false} ReadFromSteps(lib: OggLib, file: seq<byte>, pos: nat, buffered: seq<byte>, taken: nat)
    requires pos <= |file|
    ensures var r := ReadFrom(lib, file, pos, buffered, taken);
      r.next.Some? ==> r.next.value == |file| || (r.next.value - pos) % BUFFER_SIZE == 0
    decreases |file| - pos
  {
    if pos < |file| {
      var n := Min(BUFFER_SIZE, |file| - pos);
      var b := buffered + file[pos..pos + n];
      if lib.pagesIn(b) <= taken {
        ReadFromSteps(lib, file, pos + n, b, taken);
        var r := ReadFrom(lib, file, pos + n, b, taken);
        if r.next.Some? && r.next.value < |file| {
          assert n == BUFFER_SIZE;
          assert r.next.value - pos == (r.next.value - (pos + n)) + BUFFER_SIZE;
        }
      }
    }
  }

  /** Whether the reader, started at `pos`, holds one more complete page
      once it has copied up to the end of step `c`. */
  predicate PageAfter(lib: OggLib, file: seq<byte>, pos: nat, buffered: seq<byte>, taken: nat, c: Chunk) {
    pos <= c.from + c.count <= |file| && taken < lib.pagesIn(buffered + file[pos..c.from + c.count])
  }

  /** The first of the steps `cs` after which the reader started at `pos`
      holds one more complete page. */
  function FirstPageStep(lib: OggLib, file: seq<byte>, pos: nat, buffered: seq<byte>, taken: nat, cs: seq<Chunk>): (r: Option<nat>)
    ensures r.Some? ==>
      && r.value < |cs| && PageAfter(lib, file, pos, buffered, taken, cs[r.value])
      && forall j :: 0 <= j < r.value ==> !PageAfter(lib, file, pos, buffered, taken, cs[j])
    ensures r.None? ==> forall j :: 0 <= j < |cs| ==> !PageAfter(lib, file, pos, buffered, taken, cs[j])
  {
    if cs == [] then None
    else if PageAfter(lib, file, pos, buffered, taken, cs[0]) then Some(0)
    else match FirstPageStep(lib, file, pos, buffered, taken, cs[1..])
      case None => None
      case Some(i) => Some(i + 1)
  }

  /** Steps past `mid` see the same bytes whether the reader started at
      `pos` or at `mid` with `file[pos..mid]` already written. */
  lemma {:induction false} FirstPageStepShift(lib: OggLib, file: seq<byte>, pos: nat, mid: nat, buffered: seq<byte>, taken: nat, cs: seq<Chunk>)
    requires pos <= mid <= |file|
    requires forall j :: 0 <= j < |cs| ==> mid <= cs[j].from
    ensures FirstPageStep(lib, file, mid, buffered + file[pos..mid], taken, cs) == FirstPageStep(lib, file, pos, buffered, taken, cs)
  {
    if cs != [] {
      var e := cs[0].from + cs[0].count;
      if e <= |file| {
        assert (buffered + file[pos..mid]) + file[mid..e] == buffered + file[pos..e];
      }
      FirstPageStepShift(lib, file, pos, mid, buffered, taken, cs[1..]);
    }
  }

  /** Where the reader stops when it stops after the step `FirstPageStep`
      names, or `NULL` when there is none. */
  function StopOf(cs: seq<Chunk>, step: Option<nat>): Option<nat> {
    match step
    case Some(i) => if i < |cs| then Some(cs[i].from + cs[i].count) else None
    case None => None
  }

  /** The copy loop takes the steps of `Chunks(|file|, BUFFER_SIZE, pos)`
      in order: it stops at the end of the first step after which a page is
      complete, and returns `NULL` when no step completes one. */
  lemma {:induction false} ReadFromFollowsChunks(lib: OggLib, file: seq<byte>, pos: nat, buffered: seq<byte>, taken: nat)
    requires pos <= |file|
    ensures var cs := Chunks(|file|, BUFFER_SIZE, pos);
      ReadFrom(lib, file, pos, buffered, taken).next == StopOf(cs, FirstPageStep(lib, file, pos, buffered, taken, cs))
    decreases |file| - pos
  {
    if pos < |file| {
      var n := Min(BUFFER_SIZE, |file| - pos);
      var b := buffered + file[pos..pos + n];
      if lib.pagesIn(b) <= taken {
        ReadFromFollowsChunks(lib, file, pos + n, b, taken);
        ReadOnAfterStep(lib, file, pos, buffered, taken);
      } else {
        var cs := Chunks(|file|, BUFFER_SIZE, pos);
        assert cs[0] == Chunk(pos, n);
        assert PageAfter(lib, file, pos, buffered, taken, cs[0]);
      }
    } else {
      assert Chunks(|file|, BUFFER_SIZE, pos) == [];
    }
  }

  /** The inductive step of `ReadFromFollowsChunks`: a first step that
      completes no page hands the rest of the plan on to the reader at the
      next offset. */
  lemma ReadOnAfterStep(lib: OggLib, file: seq<byte>, pos: nat, buffered: seq<byte>, taken: nat)
    requires pos < |file|
    requires var n := Min(BUFFER_SIZE, |file| - pos);
      var b, rest := buffered + file[pos..pos + n], Chunks(|file|, BUFFER_SIZE, pos + n);
      && lib.pagesIn(b) <= taken
      && ReadFrom(lib, file, pos + n, b, taken).next == StopOf(rest, FirstPageStep(lib, file, pos + n, b, taken, rest))
    ensures var cs := Chunks(|file|, BUFFER_SIZE, pos);
      ReadFrom(lib, file, pos, buffered, taken).next == StopOf(cs, FirstPageStep(lib, file, pos, buffered, taken, cs))
  {
    var n := Min(BUFFER_SIZE, |file| - pos);
    var b, rest := buffered + file[pos..pos + n], Chunks(|file|, BUFFER_SIZE, pos + n);
    var cs := Chunks(|file|, BUFFER_SIZE, pos);
    assert cs[0] == Chunk(pos, n) && cs[1..] == rest;
    assert !PageAfter(lib, file, pos, buffered, taken, cs[0]);
    ChunksBounded(|file|, BUFFER_SIZE, pos + n);
    FirstPageStepShift(lib, file, pos, pos + n, buffered, taken, rest);
    FirstPageStepSkip(lib, file, pos, buffered, taken, cs);
    assert ReadFrom(lib, file, pos, buffered, taken) == ReadFrom(lib, file, pos + n, b, taken);
  }

  /** A first step that completes no page is skipped: the stop is the one
      the remaining steps give. */
  lemma FirstPageStepSkip(lib: OggLib, file: seq<byte>, pos: nat, buffered: seq<byte>, taken: nat, cs: seq<Chunk>)
    requires cs != [] && !PageAfter(lib, file, pos, buffered, taken, cs[0])
    ensures StopOf(cs, FirstPageStep(lib, file, pos, buffered, taken, cs))
      == StopOf(cs[1..], FirstPageStep(lib, file, pos, buffered, taken, cs[1..]))
  {
    match FirstPageStep(lib, file, pos, buffered, taken, cs[1..])
    case None =>
    case Some(i) => assert cs[i + 1] == cs[1..][i];
  }

  /** libogg's sync state as `decodeComments` uses it: the bytes written to
      it and the number of pages taken out of it. */
  class OggSync {
    var buffered: seq<byte>
    var taken: nat

    /** `ogg_sync_init` */
    constructor ()
      ensures buffered == [] && taken == 0
    {
      buffered, taken := [], 0;
    }

    /** `ogg_sync_pageout`: takes out the next page if the bytes written hold
        one more complete page. */
    method Pageout(lib: OggLib) returns (got: bool)
      modifies this
      ensures buffered == old(buffered)
      ensures got <==> old(taken) < lib.pagesIn(buffered)
      ensures taken == if got then old(taken) + 1 else old(taken)
    {
      got := taken < lib.pagesIn(buffered);
      if got {
        taken := taken + 1;
      }
    }

    /** `ogg_sync_buffer`, `memcpy` into it and `ogg_sync_wrote`. */
    method Write(bytes: seq<byte>)
      modifies this
      ensures buffered == old(buffered) + bytes && taken == old(taken)
    {
      buffered := buffered + bytes;
    }
  }

  /** `_readNextPage` on a sync state. */
  method ReadNextPage(lib: OggLib, file: seq<byte>, pos: nat, sync: OggSync) returns (next: Option<nat>)
    requires pos <= |file|
    modifies sync
    ensures ReadResult(next, sync.buffered, sync.taken) == NextPage(lib, file, pos, old(sync.buffered), old(sync.taken))
  {
    var got := sync.Pageout(lib);
    if got {
      return Some(pos);
    }
    var readPos := pos;
    while readPos != |file|
      invariant pos <= readPos <= |file|
      invariant NextPage(lib, file, pos, old(sync.buffered), old(sync.taken)) == ReadFrom(lib, file, readPos, sync.buffered, sync.taken)
      decreases |file| - readPos
    {
      var readLen := if readPos + BUFFER_SIZE < |file| then BUFFER_SIZE else |file| - readPos;
      sync.Write(file[readPos..readPos + readLen]);
      readPos := readPos + readLen;
      got := sync.Pageout(lib);
      if got {
        return Some(readPos);
      }
    }
    return None;
  }

  // ---------------------------------------------------------------------
  // `decodeComments` (c-source/middle-layer.c:182-233)
  // ---------------------------------------------------------------------

  /** The `state` enum of `decodeComments`, in its declared order. */
  datatype Phase = NEW | INITIALIZED | STREAM_INITIALIZED | FOUND_COMMENT

  function Rank(p: Phase): nat {
    match p
    case NEW => 0
    case INITIALIZED => 1
    case STREAM_INITIALIZED => 2
    case FOUND_COMMENT => 3
  }

  /** How the packet loop after a page ends: no packet left (with the
      number read so far), a packet `vorbis_synthesis_headerin` rejected
      (with the number accepted before it), or the second packet read. */
  datatype PacketsOutcome = Exhausted(packetsRead: nat) | HeaderRejected(accepted: nat) | SecondPacket

  /** The inner `while(1)` loop: takes packets out of the stream while there
      are any, hands each to `vorbis_synthesis_headerin`, and stops at the
      second. */
  function HeaderPackets(lib: OggLib, pagesRead: nat, packetsRead: nat): (r: PacketsOutcome)
    requires packetsRead < 2
    ensures r.Exhausted? ==> packetsRead <= r.packetsRead < 2 && lib.packetsIn(pagesRead) <= r.packetsRead
    ensures r.HeaderRejected? ==> packetsRead <= r.accepted < 2 && lib.headerinFails(r.accepted)
    decreases lib.packetsIn(pagesRead) - packetsRead
  {
    if lib.packetsIn(pagesRead) <= packetsRead then Exhausted(packetsRead)
    else if lib.headerinFails(packetsRead) then HeaderRejected(packetsRead)
    else if packetsRead + 1 == 2 then SecondPacket
    else HeaderPackets(lib, pagesRead, packetsRead + 1)
  }

  /** The state the read loop leaves: the `state` variable and the two
      counters. */
  datatype DecodeEnd = DecodeEnd(phase: Phase, pagesRead: nat, packetsRead: nat)

  /** The outer loop of `decodeComments` from a given point. As written the
      loop runs while `pReadPos != pStopReadPos`; with `drain` it goes on
      until `_readNextPage` returns `NULL`, so that pages already in the sync
      state are read too. Every early exit is a `goto cleanup` with the
      state reached so far. */
  function Scan(lib: OggLib, file: seq<byte>, drain: bool, pos: nat, buffered: seq<byte>, taken: nat,
                pagesRead: nat, packetsRead: nat, phase: Phase): (r: DecodeEnd)
    requires pos <= |file| && packetsRead < 2
    requires phase == if pagesRead > 0 then STREAM_INITIALIZED else INITIALIZED
    ensures r.phase == FOUND_COMMENT <==> r.packetsRead == 2
    ensures r.phase != NEW && r.packetsRead <= 2
    ensures Rank(r.phase) >= Rank(STREAM_INITIALIZED) ==> r.pagesRead >= 1
    decreases |file| - pos, lib.pagesIn(buffered) - taken
  {
    if !drain && pos == |file| then DecodeEnd(phase, pagesRead, packetsRead)
    else
      var rr := NextPage(lib, file, pos, buffered, taken);
      if rr.next.None? then DecodeEnd(phase, pagesRead, packetsRead)
      else
        var pages := pagesRead + 1;
        if pages == 1 && lib.streamInitFails then DecodeEnd(phase, pages, packetsRead)
        else
          var phase' := if pages == 1 then STREAM_INITIALIZED else phase;
          if lib.pageinFails(pages - 1) then DecodeEnd(phase', pages, packetsRead)
          else
            match HeaderPackets(lib, pages, packetsRead)
            case HeaderRejected(accepted) => DecodeEnd(phase', pages, accepted)
            case SecondPacket => DecodeEnd(FOUND_COMMENT, pages, 2)
            case Exhausted(p) => Scan(lib, file, drain, rr.next.value, rr.buffered, rr.taken, pages, p, phase')
  }

  /** The read loop of `decodeComments` over a whole file. */
  function Decode(lib: OggLib, file: seq<byte>, drain: bool): DecodeEnd {
    Scan(lib, file, drain, 0, [], 0, 0, 0, INITIALIZED)
  }

  /** The structures the cleanup code clears. */
  datatype Structure = Stream | Sync | Comment | Info

  /** The packet loop of `decodeComments` (lines 211-218). */
  method ReadHeaderPackets(lib: OggLib, pagesRead: nat, packetsRead: nat) returns (outcome: PacketsOutcome)
    requires packetsRead < 2
    ensures outcome == HeaderPackets(lib, pagesRead, packetsRead)
  {
    var read := packetsRead;
    while true
      invariant packetsRead <= read < 2
      invariant HeaderPackets(lib, pagesRead, packetsRead) == HeaderPackets(lib, pagesRead, read)
      decreases lib.packetsIn(pagesRead) - read
    {
      if lib.packetsIn(pagesRead) <= read {
        return Exhausted(read);
      }
      if lib.headerinFails(read) {
        return HeaderRejected(read);
      }
      read := read + 1;
      if read == 2 {
        return SecondPacket;
      }
    }
  }

  /** Lines 194-221 of `decodeComments`: sets up the sync state, then reads
      pages and packets until the comment header has been read or a call
      fails. A `goto cleanup` returns the state reached so far. */
  method FindComments(lib: OggLib, file: seq<byte>, drain: bool) returns (state: Phase, pagesRead: nat, packetsRead: nat)
    ensures DecodeEnd(state, pagesRead, packetsRead) == Decode(lib, file, drain)
  {
    state := NEW;
    var sync := new OggSync();
    state := INITIALIZED;
    pagesRead, packetsRead := 0, 0;
    var readPos := 0;
    while drain || readPos != |file|
      invariant readPos <= |file| && packetsRead < 2
      invariant state == if pagesRead > 0 then STREAM_INITIALIZED else INITIALIZED
      invariant Decode(lib, file, drain) == Scan(lib, file, drain, readPos, sync.buffered, sync.taken, pagesRead, packetsRead, state)
      decreases |file| - readPos, lib.pagesIn(sync.buffered) - sync.taken
    {
      ghost var rr := NextPage(lib, file, readPos, sync.buffered, sync.taken);
      var next := ReadNextPage(lib, file, readPos, sync);
      if next.None? {
        return;
      }
      readPos := next.value;
      pagesRead := pagesRead + 1;
      if pagesRead == 1 {
        if lib.streamInitFails {
          return;
        }
        state := STREAM_INITIALIZED;
      }
      if lib.pageinFails(pagesRead - 1) {
        return;
      }
      var outcome := ReadHeaderPackets(lib, pagesRead, packetsRead);
      match outcome
      case HeaderRejected(accepted) =>
        packetsRead := accepted;
        return;
      case SecondPacket =>
        packetsRead, state := 2, FOUND_COMMENT;
        return;
      case Exhausted(p) =>
        packetsRead := p;
    }
  }

  /** The cleanup code, `state` as it stands at `cleanup:`. */
  method Cleanup(state: Phase) returns (cleared: seq<Structure>)
    ensures Stream in cleared <==> Rank(state) >= Rank(STREAM_INITIALIZED)
    ensures Sync in cleared && Comment in cleared && Info in cleared
    ensures cleared == (if Rank(state) >= Rank(STREAM_INITIALIZED) then [Stream] else []) + [Sync, Comment, Info]
  {
    cleared := [];
    if Rank(state) >= Rank(STREAM_INITIALIZED) {
      cleared := cleared + [Stream];
    }
    if Rank(state) >= Rank(NEW) {
      cleared := cleared + [Sync, Comment, Info];
    }
  }

  /** `decodeComments` as written: a buffer only when the comment header was
      read, and then the packed comment list; the stream state is cleared
      exactly when it was initialised, the other structures always. */
  method DecodeComments(lib: OggLib, file: seq<byte>) returns (pResult: array?<char>, cleared: seq<Structure>)
    ensures var end := Decode(lib, file, false);
      && (pResult != null <==> end.phase == FOUND_COMMENT)
      && (pResult != null ==> pResult[..] == Packed(lib.comments))
      && (Stream in cleared <==> Rank(end.phase) >= Rank(STREAM_INITIALIZED))
      && Sync in cleared && Comment in cleared && Info in cleared
  {
    var state, pagesRead, packetsRead := FindComments(lib, file, false);
    pResult := null;
    if state == FOUND_COMMENT {
      pResult := PackComments(lib.comments);
    }
    cleared := Cleanup(state);
  }

  /** `decodeComments` with both corrections: the read loop drains the
      pages already in the sync state, and the packed buffer is always
      NUL-terminated. */
  method DecodeCommentsDrained(lib: OggLib, file: seq<byte>) returns (pResult: array?<char>, cleared: seq<Structure>)
    ensures var end := Decode(lib, file, true);
      && (pResult != null <==> end.phase == FOUND_COMMENT)
      && (pResult != null ==> pResult[..] == TagUtil.Join(lib.comments, TagUtil.TAB) + [TagUtil.NUL])
      && (Stream in cleared <==> Rank(end.phase) >= Rank(STREAM_INITIALIZED))
      && Sync in cleared && Comment in cleared && Info in cleared
  {
    var state, pagesRead, packetsRead := FindComments(lib, file, true);
    pResult := null;
    if state == FOUND_COMMENT {
      pResult := PackCommentsTerminated(lib.comments);
    }
    cleared := Cleanup(state);
  }

  // ---------------------------------------------------------------------
  // What the read loop finds
  // ---------------------------------------------------------------------

  /** A tiny file: two bytes that libogg reads as two pages, the first
      holding the identification header and the second the comment header.
      As written, the first `_readNextPage` copies the whole file and
      returns the first page at the end of the input, the loop condition
      then fails, and the second page is never taken out of the sync state.
      Draining the sync state finds the comments. */
  function TwoPageLib(): OggLib {
    OggLib(b => if |b| >= 2 then 2 else 0, false, k => false,
           k => if k == 0 then 0 else if k == 1 then 1 else 2, j => false, ["ENCODER=sl-web-ogg"])
  }

  lemma SmallFileMissesComments()
    ensures Decode(TwoPageLib(), [0, 0], false).phase == STREAM_INITIALIZED
    ensures Decode(TwoPageLib(), [0, 0], true).phase == FOUND_COMMENT
  {
    var lib, file: seq<byte> := TwoPageLib(), [0, 0];
    assert file[0..2] == file;
    assert ReadFrom(lib, file, 0, [], 0) == ReadResult(Some(2), file, 1);
    assert NextPage(lib, file, 0, [], 0) == ReadResult(Some(2), file, 1);
    assert HeaderPackets(lib, 1, 1) == Exhausted(1);
    assert HeaderPackets(lib, 1, 0) == Exhausted(1);
    assert NextPage(lib, file, 2, file, 1) == ReadResult(Some(2), file, 2);
    assert HeaderPackets(lib, 2, 1) == SecondPacket;
  }

  /** The drained read loop from any point it can reach (everything before
      `pos` written to the sync state, one page read per page taken out),
      when nothing fails and the file's pages hold both header packets:
      it always ends at the comment header. */
  lemma {:induction false} DrainedScanFindsComments(lib: OggLib, file: seq<byte>, pos: nat, buffered: seq<byte>, taken: nat,
                                                    packetsRead: nat, phase: Phase)
    requires pos <= |file| && packetsRead < 2 && buffered + file[pos..] == file
    requires !lib.streamInitFails
    requires forall k :: !lib.pageinFails(k)
    requires forall j :: !lib.headerinFails(j)
    requires lib.pagesIn(file) >= 1
    requires forall k :: k >= lib.pagesIn(file) ==> lib.packetsIn(k) >= 2
    requires taken > 0 ==> lib.packetsIn(taken) <= packetsRead
    requires phase == (if taken > 0 then STREAM_INITIALIZED else INITIALIZED)
    ensures Scan(lib, file, true, pos, buffered, taken, taken, packetsRead, phase).phase == FOUND_COMMENT
    decreases |file| - pos, lib.pagesIn(buffered) - taken
  {
    var rr := NextPage(lib, file, pos, buffered, taken);
    if rr.next.Some? {
      var next := rr.next.value;
      assert file[pos..] == file[pos..next] + file[next..];
      var pages := taken + 1;
      var phase' := STREAM_INITIALIZED;
      match HeaderPackets(lib, pages, packetsRead)
      case HeaderRejected(accepted) =>
        assert false;
      case SecondPacket =>
      case Exhausted(p) =>
        DrainedScanFindsComments(lib, file, next, rr.buffered, pages, p, phase');
    } else {
      assert false;
    }
  }

  /** With the sync state drained, a file whose pages hold both header
      packets, and on which no libogg or libvorbis call fails, yields its
      comments. */
  lemma DrainedFindsComments(lib: OggLib, file: seq<byte>)
    requires !lib.streamInitFails
    requires forall k :: !lib.pageinFails(k)
    requires forall j :: !lib.headerinFails(j)
    requires lib.pagesIn(file) >= 1
    requires forall k :: k >= lib.pagesIn(file) ==> lib.packetsIn(k) >= 2
    ensures Decode(lib, file, true).phase == FOUND_COMMENT
  {
    assert [] + file[0..] == file;
    DrainedScanFindsComments(lib, file, 0, [], 0, 0, INITIALIZED);
  }
}
