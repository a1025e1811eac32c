/** The companion link's framing: an incremental parser that resynchronises on the magic
    bytes, and the sender that cuts frames to the link's payload size. */
module CompanionFrames {
  import opened Bytes
  import opened Esp

  const MAGIC0: byte := 0x4A
  const MAGIC1: byte := 0x43
  const VERSION: byte := 1
  const FRAME_REQUEST: byte := 1
  const HEADER_LEN: nat := 12
  const FRAME_MAX_LEN: nat := 2048
  const CHUNK_MAX_LEN: nat := 512

  /** What the parser does with the bytes at the front of its buffer. */
  datatype Event =
    | SkippedByte
    | UnsupportedVersion(opcode: uint16, requestId: uint32)
    | FrameTooLong(opcode: uint16, requestId: uint32)
    | Request(opcode: uint16, requestId: uint32, payload: seq<byte>)
    | NotARequest(frameType: byte, opcode: uint16, requestId: uint32, payload: seq<byte>)
    | BufferReset

  /** Either an event and the number of bytes it uses up, or not enough bytes yet. */
  datatype Front = Wait | Take(event: Event, length: nat)

  function Opcode(b: seq<byte>): uint16
    requires |b| >= HEADER_LEN
  {
    FromLe16(b[4..6])
  }

  function RequestId(b: seq<byte>): uint32
    requires |b| >= HEADER_LEN
  {
    FromLe32(b[6..10])
  }

  /** Length of the frame the header declares. */
  function DeclaredLength(b: seq<byte>): nat
    requires |b| >= HEADER_LEN
  {
    HEADER_LEN + FromLe16(b[10..12]) as nat
  }

  function FrameEvent(frameType: byte, opcode: uint16, requestId: uint32, payload: seq<byte>): Event {
    if frameType == FRAME_REQUEST then Request(opcode, requestId, payload)
    else NotARequest(frameType, opcode, requestId, payload)
  }

  function AtFront(b: seq<byte>): (front: Front)
    ensures front.Take? ==> 0 < front.length <= |b|
  {
    if |b| < HEADER_LEN then Wait
    else if b[0] != MAGIC0 || b[1] != MAGIC1 then Take(SkippedByte, 1)
    else if b[2] != VERSION then Take(UnsupportedVersion(Opcode(b), RequestId(b)), HEADER_LEN)
    else if DeclaredLength(b) > FRAME_MAX_LEN then Take(FrameTooLong(Opcode(b), RequestId(b)), HEADER_LEN)
    else if |b| < DeclaredLength(b) then Wait
    else Take(FrameEvent(b[3], Opcode(b), RequestId(b), b[HEADER_LEN..DeclaredLength(b)]), DeclaredLength(b))
  }

  /** The reference parse of a whole stream: its events, and the bytes still waiting. */
  function Parse(stream: seq<byte>): (r: (seq<Event>, seq<byte>))
    ensures AtFront(r.1) == Wait
    decreases |stream|
  {
    match AtFront(stream)
    case Wait => ([], stream)
    case Take(event, length) =>
      var (events, rest) := Parse(stream[length..]);
      ([event] + events, rest)
  }

  // ----- Chunking -----

  lemma FrontStable(b: seq<byte>, more: seq<byte>)
    requires AtFront(b).Take?
    ensures AtFront(b + more) == AtFront(b)
  {
    var all := b + more;
    assert all[4..6] == b[4..6] && all[6..10] == b[6..10] && all[10..12] == b[10..12];
    if DeclaredLength(b) <= |b| {
      assert all[HEADER_LEN..DeclaredLength(b)] == b[HEADER_LEN..DeclaredLength(b)];
    }
  }

  /** Parsing what is here now and the rest later is parsing it all at once. */
  lemma {:induction false} ParseContinues(b: seq<byte>, more: seq<byte>)
    ensures var (events, rest) := Parse(b);
            Parse(b + more) == (events + Parse(rest + more).0, Parse(rest + more).1)
    decreases |b|
  {
    match AtFront(b)
    case Wait =>
      assert [] + Parse(b + more).0 == Parse(b + more).0;
    case Take(event, length) =>
      FrontStable(b, more);
      assert (b + more)[length..] == b[length..] + more;
      ParseContinues(b[length..], more);
      var (events, rest) := Parse(b[length..]);
      assert [event] + (events + Parse(rest + more).0) == [event] + events + Parse(rest + more).0;
  }

  /** A chunk that does not fit behind the waiting bytes resets the buffer. */
  predicate Overflows(waiting: seq<byte>, chunk: seq<byte>) {
    |waiting| + |chunk| > FRAME_MAX_LEN
  }

  /** The receiver's events and waiting bytes after a list of chunks. */
  function Receive(chunks: seq<seq<byte>>): (r: (seq<Event>, seq<byte>))
    ensures AtFront(r.1) == Wait
  {
    if chunks == [] then ([], [])
    else
      var last := |chunks| - 1;
      var (events, waiting) := Receive(chunks[..last]);
      ReceiveOne(events, waiting, chunks[last])
  }

  function ReceiveOne(events: seq<Event>, waiting: seq<byte>, chunk: seq<byte>): (r: (seq<Event>, seq<byte>))
    requires AtFront(waiting) == Wait
    ensures AtFront(r.1) == Wait
  {
    if chunk == [] then (events, waiting)
    else if Overflows(waiting, chunk) then (events + [BufferReset], [])
    else
      var (more, rest) := Parse(waiting + chunk);
      (events + more, rest)
  }

  ghost predicate NoReset(chunks: seq<seq<byte>>) {
    forall k :: 0 <= k < |chunks| ==> NoResetAt(chunks, k)
  }

  ghost predicate NoResetAt(chunks: seq<seq<byte>>, k: nat)
    requires k < |chunks|
  {
    chunks[k] == [] || !Overflows(Receive(chunks[..k]).1, chunks[k])
  }

  lemma NoResetPrefix(chunks: seq<seq<byte>>, k: nat)
    requires NoReset(chunks) && k <= |chunks|
    ensures NoReset(chunks[..k])
  {
    forall i | 0 <= i < k ensures NoResetAt(chunks[..k], i) {
      assert NoResetAt(chunks, i) && chunks[..k][..i] == chunks[..i];
    }
  }

  /** One more chunk. */
  lemma NoResetOne(before: seq<seq<byte>>, chunk: seq<byte>)
    ensures NoReset(before + [chunk]) <==>
            NoReset(before) && (chunk == [] || !Overflows(Receive(before).1, chunk))
  {
    var all := before + [chunk];
    assert all[..|before|] == before && all[|before|] == chunk;
    if NoReset(all) {
      NoResetPrefix(all, |before|);
      assert NoResetAt(all, |before|);
    }
    if NoReset(before) && (chunk == [] || !Overflows(Receive(before).1, chunk)) {
      forall i | 0 <= i < |all| ensures NoResetAt(all, i) {
        if i < |before| {
          assert NoResetAt(before, i) && all[..i] == before[..i];
        }
      }
    }
  }

  lemma {:induction false} UncutWithoutReset(chunks: seq<seq<byte>>)
    requires NoReset(chunks)
    ensures Receive(chunks) == Parse(Concat(chunks))
  {
    if chunks != [] {
      var last := |chunks| - 1;
      var before, chunk := chunks[..last], chunks[last];
      assert chunks == before + [chunk];
      NoResetOne(before, chunk);
      UncutWithoutReset(before);
      ConcatOne(before, chunk);
      ParseContinues(Concat(before), chunk);
      if chunk == [] {
        assert Concat(before) + chunk == Concat(before);
      }
    }
  }

  lemma {:induction false} ParseNeverResets(stream: seq<byte>)
    ensures BufferReset !in Parse(stream).0
    decreases |stream|
  {
    match AtFront(stream)
    case Wait =>
    case Take(event, length) => ParseNeverResets(stream[length..]);
  }

  lemma {:induction false} ResetShows(chunks: seq<seq<byte>>)
    requires !NoReset(chunks)
    ensures BufferReset in Receive(chunks).0
  {
    var last := |chunks| - 1;
    var before, chunk := chunks[..last], chunks[last];
    assert chunks == before + [chunk];
    NoResetOne(before, chunk);
    if !NoReset(before) {
      ResetShows(before);
    }
  }

  /** However a stream is cut, the events and the waiting bytes are those of the whole stream
      parsed in one piece if and only if no reset fires. */
  lemma ChunkingIsInvisible(chunks: seq<seq<byte>>)
    ensures Receive(chunks) == Parse(Concat(chunks)) <==> NoReset(chunks)
  {
    if NoReset(chunks) {
      UncutWithoutReset(chunks);
    } else {
      ResetShows(chunks);
      ParseNeverResets(Concat(chunks));
    }
  }

  /** Two ways of cutting one stream cannot be told apart. */
  lemma ChunkingsAgree(left: seq<seq<byte>>, right: seq<seq<byte>>)
    requires NoReset(left) && NoReset(right) && Concat(left) == Concat(right)
    ensures Receive(left) == Receive(right)
  {
    ChunkingIsInvisible(left);
    ChunkingIsInvisible(right);
  }

  // ----- When no cutting can fire the reset -----

  function Min(a: nat, b: nat): nat { if a < b then a else b }

  /** The stream in pieces of at most the link's size. */
  ghost predicate CutsInto(stream: seq<byte>, chunks: seq<seq<byte>>) {
    Concat(chunks) == stream && forall k :: 0 <= k < |chunks| ==> |chunks[k]| <= CHUNK_MAX_LEN
  }

  /** What waits after the first `n` bytes leaves room for the longest chunk that can follow. */
  ghost predicate RoomAfter(stream: seq<byte>, n: nat)
    requires n <= |stream|
  {
    |Parse(stream[..n]).1| + Min(CHUNK_MAX_LEN, |stream| - n) <= FRAME_MAX_LEN
  }

  /** A property of the stream alone. */
  ghost predicate RoomThroughout(stream: seq<byte>) {
    forall n :: 0 <= n <= |stream| ==> RoomAfter(stream, n)
  }

  lemma ConcatPrefix(chunks: seq<seq<byte>>, k: nat)
    requires k < |chunks|
    ensures |Concat(chunks[..k])| + |chunks[k]| <= |Concat(chunks)|
    ensures Concat(chunks[..k]) == Concat(chunks)[..|Concat(chunks[..k])|]
  {
    assert chunks == chunks[..k] + chunks[k..];
    ConcatSplit(chunks[..k], chunks[k..]);
  }

  /** With room throughout, no cutting fires the reset. */
  lemma {:induction false} RoomMeansNoReset(stream: seq<byte>, chunks: seq<seq<byte>>, k: nat)
    requires CutsInto(stream, chunks) && RoomThroughout(stream) && k <= |chunks|
    ensures NoReset(chunks[..k])
  {
    if k > 0 {
      var before := chunks[..k - 1];
      RoomMeansNoReset(stream, chunks, k - 1);
      UncutWithoutReset(before);
      ConcatPrefix(chunks, k - 1);
      assert RoomAfter(stream, |Concat(before)|);
      assert chunks[..k] == before + [chunks[k - 1]];
      NoResetOne(before, chunks[k - 1]);
    }
  }

  /** The bytes one by one. */
  ghost function Singles(bytes: seq<byte>): (chunks: seq<seq<byte>>)
    ensures Concat(chunks) == bytes && |chunks| == |bytes|
    ensures forall k :: 0 <= k < |chunks| ==> |chunks[k]| == 1
  {
    if bytes == [] then []
    else [[bytes[0]]] + Singles(bytes[1..])
  }

  /** A cutting with a chunk from `n` to `end`, and single bytes before and after it. */
  lemma CutOut(stream: seq<byte>, n: nat, end: nat) returns (before: seq<seq<byte>>, after: seq<seq<byte>>)
    requires n <= end <= |stream| && end - n <= CHUNK_MAX_LEN
    ensures Concat(before) == stream[..n]
    ensures CutsInto(stream, before + [stream[n..end]] + after)
  {
    before, after := Singles(stream[..n]), Singles(stream[end..]);
    var chunk := stream[n..end];
    ConcatSplit(before + [chunk], after);
    ConcatOne(before, chunk);
    assert stream == stream[..n] + chunk + stream[end..];
  }

  /** Without room after `n` bytes, there is a cutting that the receiver gets wrong. */
  lemma NoRoomMeansReset(stream: seq<byte>, n: nat) returns (chunks: seq<seq<byte>>)
    requires n <= |stream| && !RoomAfter(stream, n)
    ensures CutsInto(stream, chunks) && !NoReset(chunks) && Receive(chunks) != Parse(stream)
  {
    var end := n + Min(CHUNK_MAX_LEN, |stream| - n);
    var chunk := stream[n..end];
    var before, after := CutOut(stream, n, end);
    ParseWaits(stream[..n]);
    chunks := before + [chunk] + after;
    if NoReset(chunks) {
      NoResetPrefix(chunks, |before| + 1);
      assert chunks[..|before| + 1] == before + [chunk];
      NoResetOne(before, chunk);
      UncutWithoutReset(before);
    }
    ChunkingIsInvisible(chunks);
  }

  /** What waits is less than the longest frame. */
  lemma ParseWaits(stream: seq<byte>)
    ensures |Parse(stream).1| < FRAME_MAX_LEN
  {
  }

  /** Every cutting of a stream is parsed as the whole stream if and only if the stream leaves
      room throughout. */
  lemma CuttingIsInvisibleIff(stream: seq<byte>)
    ensures (forall chunks :: CutsInto(stream, chunks) ==> Receive(chunks) == Parse(stream)) <==>
            RoomThroughout(stream)
  {
    if RoomThroughout(stream) {
      forall chunks | CutsInto(stream, chunks) ensures Receive(chunks) == Parse(stream) {
        RoomMeansNoReset(stream, chunks, |chunks|);
        assert chunks[..|chunks|] == chunks;
        UncutWithoutReset(chunks);
      }
    } else {
      var n :| 0 <= n <= |stream| && !RoomAfter(stream, n);
      var chunks := NoRoomMeansReset(stream, n);
    }
  }

  /** The length of the frame the waiting bytes announce; less than a header announces none. */
  function Awaited(waiting: seq<byte>): nat {
    if |waiting| < HEADER_LEN then HEADER_LEN else DeclaredLength(waiting)
  }

  /** No header of the stream that is ever waited behind declares a frame over 1537 bytes:
      then no cutting fires the reset, and every cutting is parsed as the whole stream. */
  lemma ShortFramesNeverReset(stream: seq<byte>, chunks: seq<seq<byte>>)
    requires CutsInto(stream, chunks)
    requires forall n :: 0 <= n <= |stream| ==> Awaited(Parse(stream[..n]).1) <= FRAME_MAX_LEN - CHUNK_MAX_LEN + 1
    ensures NoReset(chunks) && Receive(chunks) == Parse(stream)
  {
    forall n | 0 <= n <= |stream| ensures RoomAfter(stream, n) {
      var waiting := Parse(stream[..n]).1;
      assert |waiting| < Awaited(waiting);
    }
    CuttingIsInvisibleIff(stream);
    ChunkingIsInvisible(chunks);
  }

  // ----- Sending -----

  function HeaderBytes(frameType: byte, opcode: uint16, requestId: uint32, payloadLen: uint16): (header: seq<byte>)
    ensures |header| == HEADER_LEN
  {
    [MAGIC0, MAGIC1, VERSION, frameType] + Le16(opcode) + Le32(requestId) + Le16(payloadLen)
  }

  datatype Frame = Frame(frameType: byte, opcode: uint16, requestId: uint32, payload: seq<byte>)
  {
    predicate Fits() {
      HEADER_LEN + |payload| <= FRAME_MAX_LEN
    }

    function Event(): Event {
      FrameEvent(frameType, opcode, requestId, payload)
    }

    function Bytes(): seq<byte>
      requires Fits()
    {
      HeaderBytes(frameType, opcode, requestId, |payload|) + payload
    }
  }

  ghost predicate AllFit(frames: seq<Frame>) {
    forall i :: 0 <= i < |frames| ==> frames[i].Fits()
  }

  ghost function Wire(frames: seq<Frame>): seq<byte>
    requires AllFit(frames)
  {
    if frames == [] then [] else frames[0].Bytes() + Wire(frames[1..])
  }

  ghost function Events(frames: seq<Frame>): seq<Event> {
    if frames == [] then [] else [frames[0].Event()] + Events(frames[1..])
  }

  lemma SentFrameParses(frame: Frame, rest: seq<byte>)
    requires frame.Fits()
    ensures AtFront(frame.Bytes() + rest) == Take(frame.Event(), |frame.Bytes()|)
  {
    var b := frame.Bytes() + rest;
    var length: uint16 := |frame.payload|;
    assert b[4..6] == Le16(frame.opcode) && b[6..10] == Le32(frame.requestId) && b[10..12] == Le16(length);
    Le16RoundTrip(frame.opcode, [0, 0]);
    Le16RoundTrip(length, [0, 0]);
    Le32RoundTrip(frame.requestId);
    assert b[HEADER_LEN..HEADER_LEN + |frame.payload|] == frame.payload;
  }

  /** Frames put on the wire come back field for field, with no byte skipped or left over. */
  lemma {:induction false} SentFramesParse(frames: seq<Frame>)
    requires AllFit(frames)
    ensures Parse(Wire(frames)) == (Events(frames), [])
  {
    if frames != [] {
      var rest := Wire(frames[1..]);
      SentFrameParses(frames[0], rest);
      assert Wire(frames)[|frames[0].Bytes()|..] == rest;
      SentFramesParse(frames[1..]);
    }
  }

  /** Every frame, with what follows it up to one byte less than a chunk, fits the buffer. */
  ghost predicate Recoverable(frames: seq<Frame>)
    requires AllFit(frames)
  {
    forall i :: 0 <= i < |frames| ==> FitsWithNext(frames, i)
  }

  ghost predicate FitsWithNext(frames: seq<Frame>, i: nat)
    requires AllFit(frames) && i < |frames|
  {
    |frames[i].Bytes()| + Min(CHUNK_MAX_LEN - 1, |Wire(frames[i + 1..])|) <= FRAME_MAX_LEN
  }

  /** Less than a whole frame waits as it is. */
  lemma PartialFrameWaits(frame: Frame, n: nat)
    requires frame.Fits() && n < |frame.Bytes()|
    ensures Parse(frame.Bytes()[..n]) == ([], frame.Bytes()[..n])
  {
    var b := frame.Bytes()[..n];
    SentFrameParses(frame, []);
    assert frame.Bytes() + [] == frame.Bytes();
    if n >= HEADER_LEN {
      assert b[10..12] == frame.Bytes()[10..12];
    }
  }

  /** Inside the first frame, all that has come waits. */
  lemma RoomInFirst(frames: seq<Frame>, n: nat)
    requires AllFit(frames) && frames != [] && n < |frames[0].Bytes()|
    ensures n <= |Wire(frames)|
    ensures RoomAfter(Wire(frames), n) <==> n + Min(CHUNK_MAX_LEN, |Wire(frames)| - n) <= FRAME_MAX_LEN
  {
    assert Wire(frames)[..n] == frames[0].Bytes()[..n];
    PartialFrameWaits(frames[0], n);
  }

  /** After the first frame, the rest of the wire decides. */
  lemma RoomAfterFirst(frames: seq<Frame>, n: nat)
    requires AllFit(frames) && frames != [] && |frames[0].Bytes()| <= n <= |Wire(frames)|
    ensures n - |frames[0].Bytes()| <= |Wire(frames[1..])|
    ensures RoomAfter(Wire(frames), n) <==> RoomAfter(Wire(frames[1..]), n - |frames[0].Bytes()|)
  {
    var first, rest := frames[0].Bytes(), Wire(frames[1..])[..n - |frames[0].Bytes()|];
    assert Wire(frames)[..n] == first + rest;
    SentFrameParses(frames[0], rest);
    assert (first + rest)[|first|..] == rest;
  }

  lemma RestFitsWithNext(frames: seq<Frame>, i: nat)
    requires AllFit(frames) && 0 < i < |frames|
    ensures FitsWithNext(frames, i) <==> FitsWithNext(frames[1..], i - 1)
  {
    assert frames[1..][i..] == frames[i + 1..];
  }

  lemma RestRecoverable(frames: seq<Frame>)
    requires AllFit(frames) && Recoverable(frames) && frames != []
    ensures Recoverable(frames[1..])
  {
    forall i | 0 <= i < |frames[1..]| ensures FitsWithNext(frames[1..], i) {
      RestFitsWithNext(frames, i + 1);
    }
  }

  lemma FirstHasRoom(frames: seq<Frame>, n: nat)
    requires AllFit(frames) && frames != [] && FitsWithNext(frames, 0) && n < |frames[0].Bytes()|
    ensures n <= |Wire(frames)| && RoomAfter(Wire(frames), n)
  {
    RoomInFirst(frames, n);
  }

  lemma {:induction false} RecoverableHasRoom(frames: seq<Frame>, n: nat)
    requires AllFit(frames) && Recoverable(frames) && n <= |Wire(frames)|
    ensures RoomAfter(Wire(frames), n)
  {
    if frames != [] {
      if n < |frames[0].Bytes()| {
        assert FitsWithNext(frames, 0);
        FirstHasRoom(frames, n);
      } else {
        RoomAfterFirst(frames, n);
        RestRecoverable(frames);
        RecoverableHasRoom(frames[1..], n - |frames[0].Bytes()|);
      }
    }
  }

  /** The last byte but one of a frame that does not fit with what follows is where there is
      no room. */
  lemma {:induction false} NotRecoverableLacksRoom(frames: seq<Frame>, i: nat) returns (n: nat)
    requires AllFit(frames) && i < |frames| && !FitsWithNext(frames, i)
    ensures n <= |Wire(frames)| && !RoomAfter(Wire(frames), n)
  {
    if i == 0 {
      n := |frames[0].Bytes()| - 1;
      RoomInFirst(frames, n);
    } else {
      RestFitsWithNext(frames, i);
      var m := NotRecoverableLacksRoom(frames[1..], i - 1);
      n := m + |frames[0].Bytes()|;
      RoomAfterFirst(frames, n);
    }
  }

  /** Frames come back field for field through every cutting of the wire if and only if each,
      with what follows it up to one byte less than a chunk, fits the buffer. */
  lemma SentFramesAreRecoveredIff(frames: seq<Frame>)
    requires AllFit(frames)
    ensures (forall chunks :: CutsInto(Wire(frames), chunks) ==> Receive(chunks) == (Events(frames), [])) <==>
            Recoverable(frames)
  {
    SentFramesParse(frames);
    CuttingIsInvisibleIff(Wire(frames));
    if Recoverable(frames) {
      forall n | 0 <= n <= |Wire(frames)| ensures RoomAfter(Wire(frames), n) {
        RecoverableHasRoom(frames, n);
      }
    } else {
      var i :| 0 <= i < |frames| && !FitsWithNext(frames, i);
      var n := NotRecoverableLacksRoom(frames, i);
    }
  }

  /** So do frames of at most 1537 bytes, whatever their number. */
  lemma SentFramesAreRecovered(frames: seq<Frame>, chunks: seq<seq<byte>>)
    requires AllFit(frames) && CutsInto(Wire(frames), chunks)
    requires forall i :: 0 <= i < |frames| ==> |frames[i].Bytes()| <= FRAME_MAX_LEN - CHUNK_MAX_LEN + 1
    ensures NoReset(chunks) && Receive(chunks) == (Events(frames), [])
  {
    forall i | 0 <= i < |frames| ensures FitsWithNext(frames, i) {
      assert |frames[i].Bytes()| <= FRAME_MAX_LEN - CHUNK_MAX_LEN + 1;
    }
    SentFramesAreRecoveredIff(frames);
    SentFramesParse(frames);
    ChunkingIsInvisible(chunks);
  }

  /** Behind any longer frame they may not: a frame of that length with one of 512 bytes after
      it, and a cutting of the two that the receiver gets wrong. */
  lemma LongFramesMayReset(frameLen: nat) returns (frames: seq<Frame>, chunks: seq<seq<byte>>)
    requires FRAME_MAX_LEN - CHUNK_MAX_LEN + 1 < frameLen <= FRAME_MAX_LEN
    ensures |frames| == 2 && AllFit(frames) && |frames[0].Bytes()| == frameLen && |frames[1].Bytes()| == CHUNK_MAX_LEN
    ensures CutsInto(Wire(frames), chunks)
    ensures !NoReset(chunks) && Receive(chunks) != (Events(frames), [])
  {
    var long := Frame(FRAME_REQUEST, 0, 0, seq(frameLen - HEADER_LEN, _ => 0));
    var short := Frame(FRAME_REQUEST, 0, 0, seq(CHUNK_MAX_LEN - HEADER_LEN, _ => 0));
    frames := [long, short];
    assert frames[1..] == [short] && Wire([short]) == short.Bytes() + Wire([short][1..]);
    assert !FitsWithNext(frames, 0);
    var n := NotRecoverableLacksRoom(frames, 0);
    chunks := NoRoomMeansReset(Wire(frames), n);
    SentFramesParse(frames);
  }

  /** Writes the header before the payload and hands the frame to the link in pieces of at
      most `maxPayload` bytes. `linkErrors` tells how each hand-over turns out. */
  method SendFrame(frame: Frame, connected: bool, maxPayload: nat, linkErrors: seq<Err>)
    returns (err: Err, pieces: seq<seq<byte>>)
    requires |linkErrors| >= FRAME_MAX_LEN
    ensures |pieces| <= FRAME_MAX_LEN
    ensures !frame.Fits() ==> err == INVALID_SIZE && pieces == []
    ensures frame.Fits() && (!connected || maxPayload == 0) ==> err == INVALID_STATE && pieces == []
    ensures frame.Fits() && pieces != [] ==> Concat(pieces) <= frame.Bytes()
    ensures forall i :: 0 <= i < |pieces| ==> 0 < |pieces[i]| <= maxPayload && linkErrors[i] == OK
    ensures err == OK ==> frame.Fits() && Concat(pieces) == frame.Bytes()
    ensures frame.Fits() && connected && maxPayload > 0 && err != OK ==>
              |pieces| < |linkErrors| && err == linkErrors[|pieces|]
  {
    pieces := [];
    var frameLen := HEADER_LEN + |frame.payload|;
    if frameLen > FRAME_MAX_LEN {
      return INVALID_SIZE, pieces;
    }
    if !connected || maxPayload == 0 {
      return INVALID_STATE, pieces;
    }
    var bytes := frame.Bytes();
    var offset := 0;
    assert bytes[..0] == [];
    while offset < frameLen
      invariant |pieces| <= offset <= frameLen
      invariant Concat(pieces) == bytes[..offset]
      invariant forall i :: 0 <= i < |pieces| ==> 0 < |pieces[i]| <= maxPayload && linkErrors[i] == OK
    {
      var chunkLen := frameLen - offset;
      if chunkLen > maxPayload {
        chunkLen := maxPayload;
      }
      var linkErr := linkErrors[|pieces|];
      if linkErr != OK {
        return linkErr, pieces;
      }
      var piece := bytes[offset..offset + chunkLen];
      ConcatOne(pieces, piece);
      assert bytes[..offset + chunkLen] == bytes[..offset] + piece;
      pieces := pieces + [piece];
      offset := offset + chunkLen;
    }
    assert bytes[..frameLen] == bytes;
    return OK, pieces;
  }

  // ----- The firmware's receive buffer -----

  class Receiver {
    const rxBuffer: array<byte>
    var rxLen: nat
    /** Frames dispatched, errors answered, bytes skipped and resets, in order. */
    var events: seq<Event>

    ghost predicate Valid()
      reads this, rxBuffer
    {
      rxBuffer.Length == FRAME_MAX_LEN && rxLen <= FRAME_MAX_LEN && AtFront(Waiting()) == Wait
    }

    ghost function Waiting(): seq<byte>
      requires rxLen <= rxBuffer.Length
      reads this, rxBuffer
    {
      rxBuffer[..rxLen]
    }

    constructor ()
      ensures Valid() && fresh(rxBuffer)
      ensures events == [] && Waiting() == []
    {
      rxBuffer := new byte[FRAME_MAX_LEN](_ => 0);
      rxLen := 0;
      events := [];
      new;
      assert Waiting() == [];
    }

    /** Dispatches everything whole in the buffer and moves the rest to the front. */
    method ParseRxBuffer()
      requires rxBuffer.Length == FRAME_MAX_LEN && rxLen <= FRAME_MAX_LEN
      modifies this`rxLen, this`events, rxBuffer
      ensures Valid()
      ensures (events, Waiting()) == (old(events) + Parse(old(Waiting())).0, Parse(old(Waiting())).1)
    {
      ghost var stream := Waiting();
      var offset := DispatchWhole();
      assert stream[0..] == stream;
      assert rxBuffer[offset..rxLen] == stream[offset..];
      assert events + [] == events;
      ShiftDown(offset);
    }

    /** Dispatches frames until what is left has to wait. */
    method DispatchWhole() returns (offset: nat)
      requires rxLen <= rxBuffer.Length
      modifies this`events
      ensures offset <= rxLen && AtFront(Waiting()[offset..]) == Wait
      ensures Received(events, Waiting(), offset) == Received(old(events), Waiting(), 0)
    {
      offset := 0;
      while rxLen - offset >= HEADER_LEN
        invariant offset <= rxLen
        invariant Received(events, Waiting(), offset) == Received(old(events), Waiting(), 0)
        modifies this`events
      {
        var front := ReadFront(offset);
        if front.Wait? {
          return;
        }
        ParseStep(Waiting(), offset, events);
        events := events + [front.event];
        offset := offset + front.length;
      }
    }

    /** What the bytes from `offset` on start with. */
    method ReadFront(offset: nat) returns (front: Front)
      requires offset <= rxLen <= rxBuffer.Length && rxLen - offset >= HEADER_LEN
      ensures front == AtFront(Waiting()[offset..])
    {
      var frame := rxBuffer[offset..rxLen];
      assert frame == Waiting()[offset..];
      if frame[0] != MAGIC0 || frame[1] != MAGIC1 {
        return Take(SkippedByte, 1);
      }
      if frame[2] != VERSION {
        return Take(UnsupportedVersion(Opcode(frame), RequestId(frame)), HEADER_LEN);
      }
      var frameLen := DeclaredLength(frame);
      if frameLen > FRAME_MAX_LEN {
        return Take(FrameTooLong(Opcode(frame), RequestId(frame)), HEADER_LEN);
      }
      if rxLen - offset < frameLen {
        return Wait;
      }
      var payload := frame[HEADER_LEN..frameLen];
      if frame[3] != FRAME_REQUEST {
        return Take(NotARequest(frame[3], Opcode(frame), RequestId(frame), payload), frameLen);
      }
      return Take(Request(Opcode(frame), RequestId(frame), payload), frameLen);
    }

    /** memmove of the unread bytes to the front of the buffer. */
    method ShiftDown(offset: nat)
      requires offset <= rxLen <= rxBuffer.Length
      modifies this`rxLen, rxBuffer
      ensures rxLen == old(rxLen) - offset
      ensures rxBuffer[..rxLen] == old(rxBuffer[offset..rxLen])
    {
      var left := rxLen - offset;
      for i := 0 to left
        invariant forall k :: 0 <= k < i ==> rxBuffer[k] == old(rxBuffer[offset + k])
        invariant forall k :: i <= k < rxBuffer.Length ==> rxBuffer[k] == old(rxBuffer[k])
        modifies rxBuffer
      {
        rxBuffer[i] := rxBuffer[offset + i];
      }
      rxLen := left;
    }

    /** A link that comes up or goes down empties the buffer. */
    method ForgetWaiting()
      requires Valid()
      modifies this`rxLen
      ensures Valid() && Waiting() == [] && events == old(events)
    {
      rxLen := 0;
    }

    method HandleRxChunk(data: seq<byte>)
      requires Valid()
      modifies this`rxLen, this`events, rxBuffer
      ensures Valid()
      ensures (events, Waiting()) == ReceiveOne(old(events), old(Waiting()), data)
    {
      if data == [] {
        return;
      }
      if |data| > FRAME_MAX_LEN - rxLen {
        rxLen := 0;
        events := events + [BufferReset];
        return;
      }
      ghost var waiting := Waiting();
      for i := 0 to |data|
        invariant rxBuffer[..rxLen + i] == waiting + data[..i]
        modifies rxBuffer
      {
        rxBuffer[rxLen + i] := data[i];
      }
      rxLen := rxLen + |data|;
      assert Waiting() == waiting + data;
      ParseRxBuffer();
    }

    /** A connection: the chunks of a stream, one after the other. */
    method ReceiveAll(chunks: seq<seq<byte>>)
      requires Valid() && events == [] && rxLen == 0
      modifies this`rxLen, this`events, rxBuffer
      ensures Valid() && (events, Waiting()) == Receive(chunks)
      ensures NoReset(chunks) ==> (events, Waiting()) == Parse(Concat(chunks))
    {
      assert chunks[..0] == [];
      for i := 0 to |chunks|
        invariant Valid() && (events, Waiting()) == Receive(chunks[..i])
      {
        assert chunks[..i + 1][..i] == chunks[..i];
        HandleRxChunk(chunks[i]);
      }
      assert chunks[..|chunks|] == chunks;
      if NoReset(chunks) {
        ChunkingIsInvisible(chunks);
      }
    }
  }

  /** What is dispatched in all, and what is left, when `events` came before `offset`. */
  ghost function Received(events: seq<Event>, stream: seq<byte>, offset: nat): (seq<Event>, seq<byte>)
    requires offset <= |stream|
  {
    (events + Parse(stream[offset..]).0, Parse(stream[offset..]).1)
  }

  lemma ParseStep(stream: seq<byte>, offset: nat, events: seq<Event>)
    requires offset <= |stream| && AtFront(stream[offset..]).Take?
    ensures var Take(event, length) := AtFront(stream[offset..]);
            offset + length <= |stream| &&
            Received(events, stream, offset) == Received(events + [event], stream, offset + length)
  {
    var Take(event, length) := AtFront(stream[offset..]);
    assert stream[offset..][length..] == stream[offset + length..];
    var rest := Parse(stream[offset + length..]).0;
    assert events + ([event] + rest) == events + [event] + rest;
  }
}
