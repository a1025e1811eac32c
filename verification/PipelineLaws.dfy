/** What every interleaving of the playback pipeline keeps. */
module PipelineLaws {
  import opened Bytes
  import opened PlaybackPipeline

  // ----- The messages on their way, the one being decoded first -----

  ghost function Stream(s: State): seq<Msg> {
    (if s.decoder.Decoding? then [s.decoder.msg] else []) + s.queue
  }

  ghost function Releases(stream: seq<Msg>): nat {
    if stream == [] then 0 else (if stream[0].Release? then 1 else 0) + Releases(stream[1..])
  }

  /** Behind every chunk that points into buffer `buf` come at least `k` releases. */
  ghost predicate Guarded(stream: seq<Msg>, buf: nat, k: nat) {
    stream == [] ||
    ((stream[0].ChunkMsg? && stream[0].buf == buf ==> Releases(stream[1..]) >= k) && Guarded(stream[1..], buf, k))
  }

  /** The chunk numbers of the stream, in order. */
  ghost function Indices(stream: seq<Msg>): seq<nat> {
    if stream == [] then []
    else (if stream[0].ChunkMsg? then [stream[0].index] else []) + Indices(stream[1..])
  }

  lemma {:induction false} ReleasesAppend(stream: seq<Msg>, m: Msg)
    ensures Releases(stream + [m]) == Releases(stream) + if m.Release? then 1 else 0
  {
    if stream == [] {
      assert stream + [m] == [m];
    } else {
      assert (stream + [m])[1..] == stream[1..] + [m];
      ReleasesAppend(stream[1..], m);
    }
  }

  lemma {:induction false} IndicesAppend(stream: seq<Msg>, m: Msg)
    ensures Indices(stream + [m]) == Indices(stream) + if m.ChunkMsg? then [m.index] else []
  {
    if stream == [] {
      assert stream + [m] == [m];
    } else {
      assert (stream + [m])[1..] == stream[1..] + [m];
      IndicesAppend(stream[1..], m);
      var first := if stream[0].ChunkMsg? then [stream[0].index] else [];
      var last := if m.ChunkMsg? then [m.index] else [];
      Assoc(first, Indices(stream[1..]), last);
    }
  }

  /** A message put behind the others: a release guards them once more. */
  lemma {:induction false} GuardedAppend(stream: seq<Msg>, buf: nat, k: nat, m: Msg)
    requires Guarded(stream, buf, k) && (m.ChunkMsg? && m.buf == buf ==> k == 0)
    ensures Guarded(stream + [m], buf, if m.Release? then k + 1 else k)
  {
    if stream == [] {
      assert stream + [m] == [m];
    } else {
      assert (stream + [m])[1..] == stream[1..] + [m];
      GuardedAppend(stream[1..], buf, k, m);
      ReleasesAppend(stream[1..], m);
    }
  }

  lemma {:induction false} AlwaysGuarded(stream: seq<Msg>, buf: nat)
    ensures Guarded(stream, buf, 0)
  {
    if stream != [] {
      AlwaysGuarded(stream[1..], buf);
    }
  }

  /** With fewer releases than that in all, no chunk points into the buffer. */
  lemma {:induction false} NoneLeft(stream: seq<Msg>, buf: nat, k: nat)
    requires Guarded(stream, buf, k) && Releases(stream) < k
    ensures forall m :: m in stream && m.ChunkMsg? ==> m.buf != buf
  {
    if stream != [] {
      NoneLeft(stream[1..], buf, k);
    }
  }

  lemma {:induction false} NotThereIsGuarded(stream: seq<Msg>, buf: nat, k: nat)
    requires forall m :: m in stream && m.ChunkMsg? ==> m.buf != buf
    ensures Guarded(stream, buf, k)
  {
    if stream != [] {
      NotThereIsGuarded(stream[1..], buf, k);
    }
  }

  // ----- The invariant -----

  ghost predicate Shape(s: State) {
    && |s.bufs| == BUF_COUNT && s.nextFill < BUF_COUNT
    && (s.decoder.Decoding? ==> s.decoder.msg.ChunkMsg?)
    && (s.decoderCmd ==> !DecoderBusy(s))
    && (s.readerCmd.Some? ==> s.reader.Idle? && Stream(s) == [])
    && (s.reader.Top? ==> (s.checkedOut <==> s.window.Window?) && (s.window.NoWindow? ==> Stream(s) == []))
    && (s.reader.FlushBuffer? || s.reader.SendChunk? ==> s.checkedOut && s.window.Window?)
    && (s.reader.RequestRead? || s.reader.AwaitRead? || s.reader.GotRead? ==> s.checkedOut)
    && (s.reader.Idle? || s.reader.WaitPermit? || s.reader.SendEof? ==> !s.checkedOut)
  }

  /** Free permits, the reader's permit and the releases on their way are always two. */
  ghost predicate PermitsBalance(s: State) {
    s.permits + (if s.checkedOut then 1 else 0) + Releases(Stream(s)) == BUF_COUNT
  }

  /** How often chunks are guarded, by where the reader stands. */
  ghost predicate Owned(s: State)
    requires s.nextFill < BUF_COUNT
  {
    match s.reader
    case Top => Guarded(Stream(s), s.nextFill, 1)
    case FlushBuffer => Guarded(Stream(s), s.nextFill, 1)
    case SendChunk => Guarded(Stream(s), s.nextFill, 1)
    case GotRead(ok, _, _) => ok ==> Guarded(Stream(s), s.nextFill, 1)
    case WaitPermit => Guarded(Stream(s), s.nextFill, 2) && Guarded(Stream(s), LastFilled(s), 1)
    case RequestRead => Guarded(Stream(s), s.nextFill, 2) && Guarded(Stream(s), LastFilled(s), 1)
    case AwaitRead => Guarded(Stream(s), s.nextFill, 2) && Guarded(Stream(s), LastFilled(s), 1)
    case _ => true
  }

  /** A buffer holds the audio from `start` on. */
  ghost predicate Holds(s: State, buf: nat, start: nat, len: nat) {
    && buf < |s.bufs| && start + len <= |s.track.audio|
    && s.bufs[buf] == s.track.audio[start..start + len]
  }

  /** The window the reader works from is what the buffer filled last holds. */
  ghost predicate WindowHeld(s: State)
    requires s.nextFill < BUF_COUNT
  {
    && (s.reader.Top? || s.reader.SendChunk? || s.reader.FlushBuffer? ==>
          s.window.Window? ==> s.window.buf == LastFilled(s) && Holds(s, s.window.buf, s.window.start, s.window.len))
    && (s.reader.SendChunk? ==> Fits(s))
    && (InLoop(s.reader) && !s.reader.Top? ==> BoundsOk(s.track, s.chunk))
    && (s.reader.GotRead? && s.reader.ok ==>
          s.reader.buf == LastFilled(s) && Holds(s, s.reader.buf, s.track.bounds[s.chunk].0, s.reader.len))
  }

  /** The decoder works on the current track, or is about to. */
  ghost predicate Attached(s: State) {
    s.decoderCmd || DecoderBusy(s)
  }

  /** The message's bytes are the bytes of its chunk in the track's file. */
  ghost predicate PointsRight(bufs: seq<seq<byte>>, track: Track, m: Msg) {
    && m.ChunkMsg? && m.buf < |bufs| && m.offset + m.len <= |bufs[m.buf]| && BoundsOk(track, m.index)
    && bufs[m.buf][m.offset..m.offset + m.len] == ChunkAt(track, m.index)
  }

  ghost predicate AllPointRight(bufs: seq<seq<byte>>, track: Track, stream: seq<Msg>) {
    forall m :: m in stream && m.ChunkMsg? ==> PointsRight(bufs, track, m)
  }

  ghost predicate ContentRight(s: State) {
    Attached(s) ==> AllPointRight(s.bufs, s.track, Stream(s))
  }

  ghost predicate InLoop(r: Reader) {
    !r.Idle? && !r.Done? && !r.SendEof?
  }

  /** `chunks` are the track's chunks from `from` on. */
  ghost predicate AreChunks(track: Track, from: nat, chunks: seq<seq<byte>>) {
    forall k :: 0 <= k < |chunks| ==> IsChunk(track, from + k, chunks[k])
  }

  ghost predicate IsChunk(track: Track, i: nat, chunk: seq<byte>) {
    BoundsOk(track, i) && chunk == ChunkAt(track, i)
  }

  /** The chunks on their way are those from `next` up to `sent`, in order. */
  ghost predicate OnTheWay(stream: seq<Msg>, next: nat, sent: nat) {
    && sent == next + |Indices(stream)|
    && forall j :: 0 <= j < |Indices(stream)| ==> Indices(stream)[j] == next + j
  }

  /** What was decoded are the first chunks from where the track was started; what is on its
      way follows on, up to what was sent. */
  ghost predicate InOrder(s: State) {
    && s.from + |s.consumed| <= s.sent <= |s.track.bounds|
    && AreChunks(s.track, s.from, s.consumed)
    && (Attached(s) ==> OnTheWay(Stream(s), s.from + |s.consumed|, s.sent))
    && (s.readerCmd.Some? ==> s.readerCmd.value == s.sent)
    && (InLoop(s.reader) ==> s.chunk == s.sent)
    && (s.reachedEnd ==> s.sent == |s.track.bounds| && s.readerCmd.None? && !InLoop(s.reader))
  }

  ghost predicate OnlyLastIsEof(stream: seq<Msg>) {
    forall p :: 0 <= p < |stream| && stream[p].Eof? ==> p == |stream| - 1
  }

  /** The end marker is sent last. */
  ghost predicate EofLast(s: State) {
    OnlyLastIsEof(Stream(s)) && (!s.reader.Idle? || s.readerCmd.Some? ==> Eof !in Stream(s))
  }

  ghost predicate Control(s: State) {
    Shape(s) && PermitsBalance(s) && Owned(s) && EofLast(s)
  }

  ghost predicate Data(s: State)
    requires s.nextFill < BUF_COUNT
  {
    WindowHeld(s) && ContentRight(s) && InOrder(s)
  }

  ghost predicate Inv(s: State) {
    Control(s) && Data(s)
  }

  // ----- Stream moves -----

  /** A stream that loses its first message keeps what is said of it. */
  lemma PoppedKeeps(stream: seq<Msg>, bufs: seq<seq<byte>>, track: Track)
    requires stream != []
    ensures OnlyLastIsEof(stream) ==> OnlyLastIsEof(stream[1..])
    ensures AllPointRight(bufs, track, stream) ==> AllPointRight(bufs, track, stream[1..])
    ensures Eof !in stream ==> Eof !in stream[1..]
  {
    forall p | OnlyLastIsEof(stream) && 0 <= p < |stream[1..]| && stream[1..][p].Eof?
      ensures p == |stream[1..]| - 1
    {
      assert stream[p + 1] == stream[1..][p];
    }
  }

  /** The first chunk on its way is the next to be decoded. */
  lemma PoppedOrder(stream: seq<Msg>, next: nat, sent: nat)
    requires stream != [] && OnTheWay(stream, next, sent)
    ensures stream[0].ChunkMsg? ==> stream[0].index == next && OnTheWay(stream[1..], next + 1, sent)
    ensures !stream[0].ChunkMsg? ==> OnTheWay(stream[1..], next, sent)
  {
    var rest := Indices(stream[1..]);
    if !stream[0].ChunkMsg? {
      assert Indices(stream) == [] + rest == rest;
    } else {
      assert Indices(stream) == [stream[0].index] + rest && Indices(stream)[0] == stream[0].index;
      forall j | 0 <= j < |rest| ensures rest[j] == next + 1 + j {
        assert Indices(stream)[j + 1] == rest[j];
      }
    }
  }

  lemma AppendedOrder(stream: seq<Msg>, next: nat, sent: nat, m: Msg)
    requires OnTheWay(stream, next, sent)
    requires m.ChunkMsg? ==> m.index == sent
    ensures OnTheWay(stream + [m], next, if m.ChunkMsg? then sent + 1 else sent)
  {
    IndicesAppend(stream, m);
  }

  // ----- Service steps -----

  /** What the service saw when it tested the idle bits still holds. */
  ghost predicate Quiet(s: State) {
    s.service.Resetting? || s.service.Starting? ==> BothIdle(s)
  }

  /** After a reset, and while a track is being started, the decoder has no command waiting. */
  ghost predicate NothingWaits(s: State) {
    && (s.service.Stopped? ==> !s.decoderCmd)
    && (s.service.Starting? ==> !Attached(s) && s.service.args.chunk < |s.service.args.track.bounds|)
  }

  lemma LaunchedKeepsInv(s: State, args: StartArgs)
    requires Inv(s) && CanStart(s, args)
    ensures Inv(Launched(s, args))
  {
  }

  lemma ResetKeepsInv(s: State)
    requires Inv(s) && BothIdle(s)
    ensures Inv(Reset(s))
  {
  }

  /** Emptying the queues keeps the permits balanced exactly when the reader holds none. */
  lemma ResetBalancesIff(s: State)
    requires Shape(s)
    ensures PermitsBalance(Reset(s)) <==> !s.checkedOut
  {
    if s.decoder.Decoding? {
      assert Stream(Reset(s)) == [s.decoder.msg] && Stream(Reset(s))[1..] == [];
      assert Releases(Stream(Reset(s))) == 0;
    } else {
      assert Stream(Reset(s)) == [];
    }
  }

  ghost predicate OnlyBookkeeping(s: State, t: State) {
    t == s.(books := t.books, stop := t.stop, service := t.service)
  }

  /** Where the service stands, and the bookkeeping of stops and completions, are no part of
      the invariant. */
  lemma BookkeepingKeepsInv(s: State, t: State)
    requires Inv(s)
    requires OnlyBookkeeping(s, t)
    ensures Inv(t)
  {
    assert Stream(t) == Stream(s);
  }

  lemma ResetPipelineKeepsInv(s: State)
    requires Inv(s) && BothIdle(s)
    ensures Inv(Reset(s).(service := Stopped))
  {
    ResetKeepsInv(s);
    BookkeepingKeepsInv(Reset(s), Reset(s).(service := Stopped));
  }

  lemma HeaderKeepsInv(s: State, bytes: seq<byte>)
    requires Inv(s) && BothIdle(s) && !s.decoderCmd
    ensures Inv(FillHeader(s, bytes))
  {
    assert Stream(FillHeader(s, bytes)) == Stream(s);
  }

  lemma CompletingIsBookkeeping(s: State, next: Option<StartArgs>)
    ensures OnlyBookkeeping(s, Complete(s, next))
  {
    if s.books.handled >= |s.books.posted| {
    } else if !Advances(s) {
      assert OnlyBookkeeping(s, Handled(s));
    } else {
      assert OnlyBookkeeping(s, MovedOn(s));
      assert next.Some? ==> OnlyBookkeeping(s, MovedOn(s).(service := Starting(next.value)));
    }
  }

  lemma LookingIsBookkeeping(s: State, step: Step)
    requires step.StopIdle? || step.StopBegin? || step.StopEnd? || step.StartTrack? || step.StartFails?
    ensures OnlyBookkeeping(s, ServiceStep(s, step))
  {
  }

  lemma ServiceKeepsInv(s: State, step: Step)
    requires Inv(s) && Quiet(s) && NothingWaits(s) && OfService(step)
    ensures Inv(ServiceStep(s, step))
  {
    match step
    case ResetPipeline =>
      if s.service.Resetting? {
        ResetPipelineKeepsInv(s);
      }
    case ReadHeader(bytes) =>
      if s.service.Starting? {
        HeaderKeepsInv(s, bytes);
      }
    case Launch =>
      if s.service.Starting? {
        LaunchedKeepsInv(s, s.service.args);
      }
    case HandleComplete(next) =>
      CompletingIsBookkeeping(s, next);
      BookkeepingKeepsInv(s, Complete(s, next));
    case _ =>
      LookingIsBookkeeping(s, step);
      BookkeepingKeepsInv(s, ServiceStep(s, step));
  }

  // ----- Decoder steps -----

  lemma TakeChunkKeepsInv(s: State)
    requires Inv(s) && s.decoder.Running? && s.queue != [] && s.queue[0].ChunkMsg?
    ensures Inv(ReceiveStep(s))
  {
    assert Stream(s) == s.queue && Stream(ReceiveStep(s)) == Stream(s);
  }

  lemma TakeReleaseKeepsControl(s: State)
    requires Control(s) && s.decoder.Running? && s.queue != [] && s.queue[0].Release?
    ensures Control(ReceiveStep(s))
  {
    assert Stream(s) == s.queue && Stream(ReceiveStep(s)) == s.queue[1..];
    PoppedKeeps(s.queue, s.bufs, s.track);
  }

  lemma TakeReleaseKeepsData(s: State)
    requires Shape(s) && Data(s) && s.decoder.Running? && s.queue != [] && s.queue[0].Release?
    ensures Data(ReceiveStep(s))
  {
    assert Stream(s) == s.queue && Stream(ReceiveStep(s)) == s.queue[1..];
    PoppedKeeps(s.queue, s.bufs, s.track);
    PoppedOrder(s.queue, s.from + |s.consumed|, s.sent);
  }

  lemma TakeEofKeepsInv(s: State)
    requires Inv(s) && s.decoder.Running? && s.queue != [] && s.queue[0].Eof?
    ensures Inv(ReceiveStep(s))
  {
    assert Stream(s) == s.queue && Stream(ReceiveStep(s)) == s.queue[1..];
    assert Eof in s.queue;
    PoppedKeeps(s.queue, s.bufs, s.track);
  }

  lemma ReceiveKeepsInv(s: State)
    requires Inv(s) && s.decoder.Running? && s.queue != []
    ensures Inv(ReceiveStep(s))
  {
    match s.queue[0]
    case ChunkMsg(_, _, _, _) => TakeChunkKeepsInv(s);
    case Release =>
      TakeReleaseKeepsControl(s);
      TakeReleaseKeepsData(s);
    case Eof => TakeEofKeepsInv(s);
  }

  lemma AreChunksOne(track: Track, from: nat, chunks: seq<seq<byte>>, chunk: seq<byte>)
    requires AreChunks(track, from, chunks) && IsChunk(track, from + |chunks|, chunk)
    ensures AreChunks(track, from, chunks + [chunk])
  {
    var all := chunks + [chunk];
    forall k | 0 <= k < |all| ensures IsChunk(track, from + k, all[k]) {
      if k < |chunks| {
        assert all[k] == chunks[k];
      }
    }
  }

  lemma IndicesFit(stream: seq<Msg>, next: nat, sent: nat)
    requires stream != [] && stream[0].ChunkMsg? && OnTheWay(stream, next, sent)
    ensures next + 1 <= sent
  {
  }

  lemma DecodeKeepsControl(s: State)
    requires Control(s) && s.decoder.Decoding? && CanPoint(s, s.decoder.msg)
    ensures Control(DecodedStep(s))
  {
    assert Stream(s)[0] == s.decoder.msg && Stream(s)[1..] == s.queue && Stream(DecodedStep(s)) == s.queue;
    ChunkPopped(Stream(s), s.queue);
  }

  lemma DecodingPointsRight(s: State)
    requires Shape(s) && ContentRight(s) && s.decoder.Decoding?
    ensures PointsRight(s.bufs, s.track, s.decoder.msg)
    ensures AllPointRight(s.bufs, s.track, s.queue)
  {
    assert Stream(s)[0] == s.decoder.msg && s.decoder.msg in Stream(s) && Stream(s)[1..] == s.queue;
    PoppedKeeps(Stream(s), s.bufs, s.track);
  }

  lemma DecodedOrder(s: State)
    requires Shape(s) && InOrder(s) && s.decoder.Decoding? && PointsRight(s.bufs, s.track, s.decoder.msg)
    ensures var t := DecodedStep(s);
            AreChunks(t.track, t.from, t.consumed) && t.from + |t.consumed| <= t.sent &&
            OnTheWay(s.queue, t.from + |t.consumed|, t.sent)
  {
    var m, stream := s.decoder.msg, Stream(s);
    assert stream[0] == m && stream[1..] == s.queue;
    PoppedOrder(stream, s.from + |s.consumed|, s.sent);
    IndicesFit(stream, s.from + |s.consumed|, s.sent);
    AreChunksOne(s.track, s.from, s.consumed, Pointed(s, m));
  }

  lemma DecodeKeepsData(s: State)
    requires Shape(s) && Data(s) && s.decoder.Decoding?
    ensures CanPoint(s, s.decoder.msg) && Data(DecodedStep(s))
  {
    DecodingPointsRight(s);
    DecodedOrder(s);
    assert Stream(DecodedStep(s)) == s.queue;
  }

  /** A stream that loses its first chunk is as well guarded. */
  lemma ChunkPopped(stream: seq<Msg>, rest: seq<Msg>)
    requires stream != [] && stream[0].ChunkMsg? && rest == stream[1..]
    ensures Releases(rest) == Releases(stream)
    ensures forall buf, k :: Guarded(stream, buf, k) ==> Guarded(rest, buf, k)
    ensures OnlyLastIsEof(stream) ==> OnlyLastIsEof(rest)
    ensures Eof !in stream ==> Eof !in rest
  {
    PoppedKeeps(stream, [], Track([], []));
  }

  lemma AbortKeepsControl(s: State)
    requires Control(s) && s.decoder.Decoding?
    ensures Control(s.(decoder := Completing(s.books.active)))
  {
    assert Stream(s)[0] == s.decoder.msg && Stream(s)[1..] == s.queue;
    assert Stream(s.(decoder := Completing(s.books.active))) == s.queue;
    ChunkPopped(Stream(s), s.queue);
  }

  lemma DecoderStopsKeepsControl(s: State)
    requires Control(s) && DecoderBusy(s)
    ensures Control(s.(decoder := Completing(s.books.active)))
  {
    if s.decoder.Decoding? {
      AbortKeepsControl(s);
    } else {
      assert Stream(s.(decoder := Completing(s.books.active))) == Stream(s);
    }
  }

  lemma DecoderStopsKeepsData(s: State)
    requires Shape(s) && Data(s) && DecoderBusy(s)
    ensures Data(s.(decoder := Completing(s.books.active)))
  {
  }

  lemma DecoderDequeueKeepsInv(s: State, opens: bool)
    requires Inv(s)
    ensures Inv(DecoderStep(s, DecoderDequeue(opens)))
  {
    assert Stream(DecoderStep(s, DecoderDequeue(opens))) == Stream(s);
  }

  lemma CompletedKeepsInv(s: State)
    requires Inv(s) && s.decoder.Completing?
    ensures Inv(s.(decoder := DecoderIdle))
  {
    assert Stream(s.(decoder := DecoderIdle)) == Stream(s);
  }

  lemma PostCompletionKeepsInv(s: State, delivered: bool)
    requires Inv(s) && s.decoder.Completing?
    ensures Inv(DecoderStep(s, PostCompletion(delivered)))
  {
    CompletedKeepsInv(s);
    BookkeepingKeepsInv(s.(decoder := DecoderIdle), DecoderStep(s, PostCompletion(delivered)));
  }

  lemma DecoderKeepsInv(s: State, step: Step)
    requires Inv(s) && OfDecoder(step)
    ensures Inv(DecoderStep(s, step))
  {
    match step
    case Receive =>
      if s.decoder.Running? && s.queue != [] {
        ReceiveKeepsInv(s);
      }
    case DecodeChunk =>
      if s.decoder.Decoding? {
        DecodeKeepsData(s);
        DecodeKeepsControl(s);
      }
    case DecoderStops =>
      if s.stop && DecoderBusy(s) {
        DecoderStopsKeepsControl(s);
        DecoderStopsKeepsData(s);
      }
    case DecoderDequeue(opens) => DecoderDequeueKeepsInv(s, opens);
    case PostCompletion(delivered) =>
      if s.decoder.Completing? {
        PostCompletionKeepsInv(s, delivered);
      }
  }

  // ----- Reader steps -----

  lemma SentPointsRight(s: State)
    requires Shape(s) && Data(s) && s.reader.SendChunk?
    ensures var m := SendStep(s).queue[|SendStep(s).queue| - 1];
            SendStep(s).queue == s.queue + [m] && PointsRight(s.bufs, s.track, m) && m.index == s.sent &&
            m.buf == LastFilled(s)
  {
    var (start, end) := s.track.bounds[s.chunk];
    SliceOfSlice(s.track.audio, s.window.start, s.window.start + s.window.len, start - s.window.start, end - s.window.start);
  }

  lemma SendKeepsControl(s: State)
    requires Inv(s) && s.reader.SendChunk?
    ensures Control(SendStep(s))
  {
    SentPointsRight(s);
    var m := SendStep(s).queue[|s.queue|];
    assert Stream(SendStep(s)) == Stream(s) + [m];
    ReleasesAppend(Stream(s), m);
    GuardedAppend(Stream(s), s.nextFill, 1, m);
  }

  lemma SendKeepsData(s: State)
    requires Shape(s) && Data(s) && s.reader.SendChunk?
    ensures Data(SendStep(s))
  {
    SentPointsRight(s);
    var m := SendStep(s).queue[|s.queue|];
    assert Stream(SendStep(s)) == Stream(s) + [m];
    if Attached(s) {
      AppendedOrder(Stream(s), s.from + |s.consumed|, s.sent, m);
    }
  }

  lemma FlushKeepsControl(s: State)
    requires Control(s) && s.reader.FlushBuffer?
    ensures Control(FlushStep(s))
  {
    assert Stream(FlushStep(s)) == Stream(s) + [Release];
    ReleasesAppend(Stream(s), Release);
    GuardedAppend(Stream(s), s.nextFill, 1, Release);
    AlwaysGuarded(Stream(s), LastFilled(s));
    GuardedAppend(Stream(s), LastFilled(s), 0, Release);
  }

  lemma FlushKeepsData(s: State)
    requires Shape(s) && Data(s) && s.reader.FlushBuffer?
    ensures Data(FlushStep(s))
  {
    assert Stream(FlushStep(s)) == Stream(s) + [Release];
    if Attached(s) {
      AppendedOrder(Stream(s), s.from + |s.consumed|, s.sent, Release);
    }
  }

  /** When a read starts filling a buffer, no message on its way and no chunk being decoded
      points into it. */
  lemma BufferIsFree(s: State)
    requires Inv(s) && s.reader.AwaitRead?
    ensures forall m :: m in Stream(s) && m.ChunkMsg? ==> m.buf != s.nextFill
  {
    NoneLeft(Stream(s), s.nextFill, 2);
  }

  /** Filling one buffer leaves the messages that point into the other as they were. */
  lemma FillKeepsContent(bufs: seq<seq<byte>>, track: Track, stream: seq<Msg>, buf: nat, bytes: seq<byte>)
    requires AllPointRight(bufs, track, stream) && buf < |bufs|
    requires forall m :: m in stream && m.ChunkMsg? ==> m.buf != buf
    ensures AllPointRight(bufs[buf := bytes], track, stream)
  {
    forall m | m in stream && m.ChunkMsg? ensures PointsRight(bufs[buf := bytes], track, m) {
      assert PointsRight(bufs, track, m);
    }
  }

  lemma FilledKeepsInv(s: State, len: nat)
    requires Inv(s) && s.reader.AwaitRead?
    requires len <= READ_BUF_SIZE && s.track.bounds[s.chunk].0 + len <= |s.track.audio|
    ensures Inv(ReadStep(s, Filled(len)))
  {
    BufferIsFree(s);
    var t := ReadStep(s, Filled(len));
    assert Stream(t) == Stream(s);
    if Attached(s) {
      FillKeepsContent(s.bufs, s.track, Stream(s), s.nextFill, t.bufs[s.nextFill]);
    }
  }

  lemma NotFilledKeepsControl(s: State, outcome: ReadOutcome)
    requires Control(s) && s.reader.AwaitRead? && !outcome.Filled? && BoundsOk(s.track, s.chunk)
    ensures Control(ReadStep(s, outcome))
  {
    assert Stream(ReadStep(s, outcome)) == Stream(s);
  }

  lemma NotFilledKeepsData(s: State, outcome: ReadOutcome)
    requires Shape(s) && Data(s) && s.reader.AwaitRead? && !outcome.Filled?
    ensures Data(ReadStep(s, outcome))
  {
    assert Stream(ReadStep(s, outcome)) == Stream(s);
  }

  lemma ReadKeepsInv(s: State, outcome: ReadOutcome)
    requires Inv(s) && s.reader.AwaitRead?
    ensures Inv(ReadStep(s, outcome))
  {
    if !outcome.Filled? {
      NotFilledKeepsControl(s, outcome);
      NotFilledKeepsData(s, outcome);
    } else if outcome.len <= READ_BUF_SIZE && s.track.bounds[s.chunk].0 + outcome.len <= |s.track.audio| {
      FilledKeepsInv(s, outcome.len);
    }
  }

  lemma EofKeepsControl(s: State)
    requires Control(s) && s.reader.SendEof?
    ensures Control(EofStep(s))
  {
    assert Stream(EofStep(s)) == Stream(s) + [Eof];
    ReleasesAppend(Stream(s), Eof);
  }

  lemma EofKeepsData(s: State)
    requires Shape(s) && Data(s) && s.reader.SendEof?
    ensures Data(EofStep(s))
  {
    assert Stream(EofStep(s)) == Stream(s) + [Eof];
    if Attached(s) {
      AppendedOrder(Stream(s), s.from + |s.consumed|, s.sent, Eof);
    }
  }

  lemma FitsKeepsInv(s: State)
    requires Inv(s) && s.reader.Top? && Fits(s) && BoundsOk(s.track, s.chunk)
    ensures Inv(s.(reader := SendChunk))
  {
    assert Stream(s.(reader := SendChunk)) == Stream(s);
  }

  lemma FlushNextKeepsInv(s: State)
    requires Inv(s) && s.reader.Top? && s.window.Window? && BoundsOk(s.track, s.chunk)
    ensures Inv(s.(reader := FlushBuffer))
  {
    assert Stream(s.(reader := FlushBuffer)) == Stream(s);
  }

  lemma FirstReadKeepsInv(s: State)
    requires Inv(s) && s.reader.Top? && s.window.NoWindow? && BoundsOk(s.track, s.chunk)
    ensures Inv(s.(reader := WaitPermit))
  {
    assert Stream(s) == [] && Stream(s.(reader := WaitPermit)) == [];
  }

  lemma ReachedEndKeepsInv(s: State)
    requires Inv(s) && s.reader.Top? && s.chunk >= |s.track.bounds|
    ensures Inv(s.(reader := Done, reachedEnd := true))
  {
    assert Stream(s.(reader := Done, reachedEnd := true)) == Stream(s);
  }

  lemma LookupKeepsInv(s: State, ok: bool)
    requires Inv(s) && s.reader.Top?
    ensures Inv(LookupStep(s, ok))
  {
    if s.chunk >= |s.track.bounds| {
      ReachedEndKeepsInv(s);
    } else if !ok || !BoundsOk(s.track, s.chunk) {
      GivesUpKeepsInv(s);
    } else if Fits(s) {
      FitsKeepsInv(s);
    } else if s.window.Window? {
      FlushNextKeepsInv(s);
    } else {
      FirstReadKeepsInv(s);
    }
  }

  lemma DequeueKeepsInv(s: State)
    requires Inv(s)
    ensures Inv(ReaderStep(s, ReaderDequeue))
  {
    assert Stream(ReaderStep(s, ReaderDequeue)) == Stream(s);
  }

  lemma TakePermitKeepsInv(s: State)
    requires Inv(s)
    ensures Inv(ReaderStep(s, TakePermit))
  {
    assert Stream(ReaderStep(s, TakePermit)) == Stream(s);
  }

  lemma IssueKeepsInv(s: State, accepted: bool)
    requires Inv(s)
    ensures Inv(ReaderStep(s, IssueRead(accepted)))
  {
    assert Stream(ReaderStep(s, IssueRead(accepted))) == Stream(s);
  }

  lemma FinishKeepsControl(s: State)
    requires Control(s) && s.reader.Done?
    ensures Control(FinishStep(s))
  {
    assert Stream(FinishStep(s)) == Stream(s);
  }

  lemma FinishKeepsData(s: State)
    requires Shape(s) && Data(s) && s.reader.Done?
    ensures Data(FinishStep(s))
  {
    assert Stream(FinishStep(s)) == Stream(s);
  }

  lemma ResultKeepsControl(s: State)
    requires Control(s) && s.reader.GotRead? && BoundsOk(s.track, s.chunk)
    ensures Control(ResultStep(s))
  {
    assert Stream(ResultStep(s)) == Stream(s);
  }

  lemma ResultKeepsData(s: State)
    requires Shape(s) && Data(s) && s.reader.GotRead?
    ensures Data(ResultStep(s))
  {
    assert Stream(ResultStep(s)) == Stream(s);
  }

  lemma GivesUpKeepsInv(s: State)
    requires Inv(s) && InLoop(s.reader)
    ensures Inv(s.(reader := Done))
  {
    assert Stream(s.(reader := Done)) == Stream(s);
  }

  lemma DropsEofKeepsInv(s: State)
    requires Inv(s) && s.reader.SendEof?
    ensures Inv(s.(reader := Idle))
  {
    assert Stream(s.(reader := Idle)) == Stream(s);
  }

  lemma ReaderStopsKeepsInv(s: State)
    requires Inv(s)
    ensures Inv(ReaderStopStep(s))
  {
    if InLoop(s.reader) {
      GivesUpKeepsInv(s);
    } else if s.reader.SendEof? {
      DropsEofKeepsInv(s);
    }
  }

  lemma ReaderKeepsInv(s: State, step: Step)
    requires Inv(s) && !OfService(step) && !OfDecoder(step)
    ensures Inv(ReaderStep(s, step))
  {
    match step
    case Lookup(ok) =>
      if s.reader.Top? {
        LookupKeepsInv(s, ok);
      }
    case Send =>
      if s.reader.SendChunk? && HasRoom(s) {
        SendKeepsControl(s);
        SendKeepsData(s);
      }
    case Flush =>
      if s.reader.FlushBuffer? && HasRoom(s) {
        FlushKeepsControl(s);
        FlushKeepsData(s);
      }
    case CartridgeRead(outcome) =>
      if s.reader.AwaitRead? {
        ReadKeepsInv(s, outcome);
      }
    case TakeResult =>
      if s.reader.GotRead? {
        ResultKeepsControl(s);
        ResultKeepsData(s);
      }
    case PostEof =>
      if s.reader.SendEof? && HasRoom(s) {
        EofKeepsControl(s);
        EofKeepsData(s);
      }
    case ReaderStops => ReaderStopsKeepsInv(s);
    case ReaderDequeue => DequeueKeepsInv(s);
    case TakePermit => TakePermitKeepsInv(s);
    case IssueRead(accepted) => IssueKeepsInv(s, accepted);
    case Finish =>
      if s.reader.Done? {
        FinishKeepsControl(s);
        FinishKeepsData(s);
      }
  }

  lemma StepKeepsInv(s: State, step: Step)
    requires Inv(s) && Quiet(s) && NothingWaits(s)
    ensures Inv(Apply(s, step))
  {
    if OfService(step) {
      ServiceKeepsInv(s, step);
    } else if OfDecoder(step) {
      DecoderKeepsInv(s, step);
    } else {
      ReaderKeepsInv(s, step);
    }
  }

  // ----- Disturbances -----

  lemma ReaderStaysIdle(s: State, step: Step)
    requires !OfService(step) && !OfDecoder(step) && s.reader.Idle? && !TakesCommand(s, step)
    ensures ReaderStep(s, step).reader.Idle?
  {
    if step.ReaderStops? {
      assert ReaderStopStep(s) == s;
    }
  }

  lemma DecoderStaysIdle(s: State, step: Step)
    requires OfDecoder(step) && !DecoderBusy(s) && !TakesCommand(s, step)
    ensures !DecoderBusy(DecoderStep(s, step)) && DecoderStep(s, step).reader == s.reader
    ensures DecoderStep(s, step).service == s.service
  {
  }

  /** Without a disturbance the tasks stay as idle as the service saw them. */
  lemma StepKeepsQuiet(s: State, step: Step)
    requires Quiet(s) && !Disturbs(s, step)
    ensures Quiet(Apply(s, step))
  {
    if OfService(step) {
      ServiceKeepsQuiet(s, step);
    } else if OfDecoder(step) {
      DecoderKeepsQuiet(s, step);
    } else {
      ReaderKeepsBooks(s, step);
      if s.service.Resetting? || s.service.Starting? {
        ReaderStaysIdle(s, step);
      }
    }
  }

  lemma ServiceKeepsQuiet(s: State, step: Step)
    requires Quiet(s) && OfService(step)
    ensures Quiet(ServiceStep(s, step))
  {
  }

  lemma DecoderKeepsQuiet(s: State, step: Step)
    requires Quiet(s) && OfDecoder(step) && !Disturbs(s, step)
    ensures Quiet(DecoderStep(s, step))
  {
    DecoderLeavesService(s, step);
    if s.service.Resetting? || s.service.Starting? {
      DecoderStaysIdle(s, step);
    }
  }

  lemma DecoderLeavesService(s: State, step: Step)
    requires OfDecoder(step)
    ensures DecoderStep(s, step).service == s.service
  {
  }

  // ----- Completions -----

  ghost predicate Distinct(generations: seq<nat>) {
    forall i, j :: 0 <= i < j < |generations| ==> generations[i] != generations[j]
  }

  /** Each generation posts its completion at most once, and a stopped one that is still
      active is the one marked cancelled. */
  ghost predicate CompletionsOnce(s: State) {
    && s.books.handled <= |s.books.posted| && Distinct(s.books.posted) && Distinct(s.books.advanced)
    && (forall g :: g in s.books.posted ==> g <= s.books.active)
    && (Attached(s) ==> s.books.active !in s.books.posted)
    && (s.decoder.Completing? ==> s.decoder.generation <= s.books.active && s.decoder.generation !in s.books.posted)
    && (s.decoder.Completing? && s.decoderCmd ==> s.decoder.generation < s.books.active)
    && (s.decoderCmd ==> !DecoderBusy(s)) && NothingWaits(s)
    && (forall g :: g in s.books.advanced ==> g in s.books.posted[..s.books.handled])
    && (forall g :: g in s.books.stopped ==> g < s.books.active || (g == s.books.active && s.books.cancelled == g))
  }

  lemma DistinctOne(generations: seq<nat>, g: nat)
    requires Distinct(generations) && g !in generations
    ensures Distinct(generations + [g])
  {
  }

  /** A completion that moves the playlist on is the first of its generation to do so, and
      that generation is the active one and was never stopped while its pipeline ran. */
  lemma AdvancesOnce(s: State)
    requires CompletionsOnce(s) && Advances(s)
    ensures s.books.posted[s.books.handled] == s.books.active && s.books.active !in s.books.advanced && s.books.active !in s.books.stopped
  {
  }

  lemma MovedOnKeepsOnce(s: State)
    requires CompletionsOnce(s) && s.books.handled < |s.books.posted|
    ensures CompletionsOnce(Handled(s)) && (Advances(s) ==> CompletionsOnce(MovedOn(s)))
  {
    assert s.books.posted[..s.books.handled + 1] == s.books.posted[..s.books.handled] + [s.books.posted[s.books.handled]];
    if Advances(s) {
      AdvancesOnce(s);
      DistinctOne(s.books.advanced, s.books.active);
    }
  }

  lemma LaunchedKeepsOnce(s: State, args: StartArgs)
    requires CompletionsOnce(s) && !Attached(s)
    ensures CompletionsOnce(Launched(s, args))
  {
  }

  lemma HandleKeepsOnce(s: State, next: Option<StartArgs>)
    requires CompletionsOnce(s)
    ensures CompletionsOnce(Complete(s, next))
  {
    if s.books.handled < |s.books.posted| {
      MovedOnKeepsOnce(s);
      if Advances(s) && next.Some? && CanStart(s, next.value) {
        StartingKeepsOnce(MovedOn(s), next.value);
      }
    }
  }

  lemma StartingKeepsOnce(s: State, args: StartArgs)
    requires CompletionsOnce(s) && !Attached(s) && args.chunk < |args.track.bounds|
    ensures CompletionsOnce(s.(service := Starting(args)))
  {
  }

  lemma PostKeepsOnce(s: State, delivered: bool)
    requires CompletionsOnce(s) && s.decoder.Completing?
    ensures CompletionsOnce(DecoderStep(s, PostCompletion(delivered)))
  {
    var t := DecoderStep(s, PostCompletion(delivered));
    DistinctOne(s.books.posted, s.decoder.generation);
    assert t.books.posted[..s.books.handled] == s.books.posted[..s.books.handled];
  }

  /** A step that leaves alone what completions depend on. */
  ghost predicate SameBooks(s: State, t: State) {
    t.books == s.books && t.decoder == s.decoder && t.decoderCmd == s.decoderCmd && t.service == s.service
  }

  lemma LookupKeepsBooks(s: State, ok: bool)
    ensures SameBooks(s, LookupStep(s, ok))
  {
  }

  lemma ReadKeepsBooks(s: State, outcome: ReadOutcome)
    ensures SameBooks(s, ReaderStep(s, CartridgeRead(outcome)))
  {
  }

  lemma ResultKeepsBooks(s: State)
    ensures SameBooks(s, ReaderStep(s, TakeResult))
  {
  }

  lemma StoppingKeepsBooks(s: State)
    ensures SameBooks(s, ReaderStopStep(s))
  {
  }

  lemma WaitingKeepsBooks(s: State, step: Step)
    requires step.ReaderDequeue? || step.Flush? || step.TakePermit? || step.IssueRead? || step.Send? || step.Finish? ||
             step.PostEof?
    ensures SameBooks(s, ReaderStep(s, step))
  {
  }

  lemma ReaderKeepsBooks(s: State, step: Step)
    requires !OfService(step) && !OfDecoder(step)
    ensures SameBooks(s, ReaderStep(s, step))
  {
    if step.Lookup? {
      LookupKeepsBooks(s, step.ok);
    } else if step.CartridgeRead? {
      ReadKeepsBooks(s, step.outcome);
    } else if step.TakeResult? {
      ResultKeepsBooks(s);
    } else if step.ReaderStops? {
      StoppingKeepsBooks(s);
    } else {
      WaitingKeepsBooks(s, step);
    }
  }

  lemma SameBooksKeepOnce(s: State, t: State)
    requires CompletionsOnce(s) && SameBooks(s, t)
    ensures CompletionsOnce(t)
  {
  }

  lemma ServiceKeepsOnce(s: State, step: Step)
    requires CompletionsOnce(s) && OfService(step)
    ensures CompletionsOnce(ServiceStep(s, step))
  {
    match step
    case HandleComplete(next) =>
      if Listening(s) {
        HandleKeepsOnce(s, next);
      }
    case StartTrack(args) =>
      if s.service.Stopped? && CanStart(s, args) {
        StartingKeepsOnce(s, args);
      }
    case Launch =>
      if s.service.Starting? {
        LaunchedKeepsOnce(s, s.service.args);
      }
    case ResetPipeline =>
    case StopBegin =>
    case StopIdle =>
    case StopEnd =>
    case StartFails =>
    case ReadHeader(bytes) => SameBooksKeepOnce(s, ServiceStep(s, step));
  }

  lemma ReceiveKeepsOnce(s: State)
    requires CompletionsOnce(s) && s.decoder.Running? && s.queue != []
    ensures CompletionsOnce(ReceiveStep(s))
  {
    match s.queue[0]
    case ChunkMsg(_, _, _, _) =>
    case Release =>
    case Eof =>
  }

  lemma DecoderKeepsOnce(s: State, step: Step)
    requires CompletionsOnce(s) && OfDecoder(step)
    ensures CompletionsOnce(DecoderStep(s, step))
  {
    match step
    case PostCompletion(delivered) =>
      if s.decoder.Completing? {
        PostKeepsOnce(s, delivered);
      }
    case Receive =>
      if s.decoder.Running? && s.queue != [] {
        ReceiveKeepsOnce(s);
      }
    case DecodeChunk =>
    case DecoderStops =>
    case DecoderDequeue(opens) =>
  }

  lemma StepKeepsOnce(s: State, step: Step)
    requires CompletionsOnce(s)
    ensures CompletionsOnce(Apply(s, step))
  {
    if OfService(step) {
      ServiceKeepsOnce(s, step);
    } else if OfDecoder(step) {
      DecoderKeepsOnce(s, step);
    } else {
      ReaderKeepsBooks(s, step);
      SameBooksKeepOnce(s, ReaderStep(s, step));
    }
  }

  /** Only the service handling a completion moves the playlist on. */
  lemma OnlyHandlingAdvances(s: State, step: Step)
    ensures Apply(s, step).books.advanced == s.books.advanced ||
            (step.HandleComplete? && Advances(s) && Apply(s, step).books.advanced == s.books.advanced + [s.books.active])
  {
    if !OfService(step) && !OfDecoder(step) {
      ReaderKeepsBooks(s, step);
    }
  }

  // ----- Runs -----

  /** At power-up: both tasks idle, nothing queued, both permits free. */
  ghost predicate Start(s: State) {
    && s.books.active == s.books.cancelled == 0 && !s.stop && s.service == Free && s.readerCmd == None && !s.decoderCmd
    && s.queue == [] && s.permits == BUF_COUNT && |s.bufs| == BUF_COUNT && s.nextFill < BUF_COUNT
    && s.reader == Idle && !s.checkedOut && s.decoder == DecoderIdle
    && s.from == s.sent == 0 && !s.reachedEnd && s.consumed == []
    && s.books.posted == [] && s.books.handled == 0 && s.books.advanced == [] && s.books.stopped == {}
  }

  ghost predicate IsRun(states: seq<State>, steps: seq<Step>) {
    && |states| == |steps| + 1 && Start(states[0])
    && forall k :: 0 <= k < |steps| ==> states[k + 1] == Apply(states[k], steps[k])
  }

  /** No task takes its command between the service's look at the idle bits and its reset. */
  ghost predicate Undisturbed(states: seq<State>, steps: seq<Step>)
    requires |states| == |steps| + 1
  {
    forall k :: 0 <= k < |steps| ==> !Disturbs(states[k], steps[k])
  }

  lemma StartHolds(s: State)
    requires Start(s)
    ensures Inv(s) && CompletionsOnce(s) && Quiet(s)
  {
    assert Stream(s) == [];
  }

  /** On every run completions are handled at most once. */
  lemma {:induction false} RunKeepsOnce(states: seq<State>, steps: seq<Step>, k: nat)
    requires IsRun(states, steps) && k < |states|
    ensures CompletionsOnce(states[k])
  {
    if k == 0 {
      StartHolds(states[0]);
    } else {
      RunKeepsOnce(states, steps, k - 1);
      StepKeepsOnce(states[k - 1], steps[k - 1]);
      assert states[k - 1 + 1] == Apply(states[k - 1], steps[k - 1]);
    }
  }

  /** On every undisturbed run the pipeline's invariant holds. */
  lemma {:induction false} RunKeepsInv(states: seq<State>, steps: seq<Step>, k: nat)
    requires IsRun(states, steps) && Undisturbed(states, steps) && k < |states|
    ensures Inv(states[k]) && Quiet(states[k])
  {
    if k == 0 {
      StartHolds(states[0]);
    } else {
      RunKeepsInv(states, steps, k - 1);
      RunKeepsOnce(states, steps, k - 1);
      assert !Disturbs(states[k - 1], steps[k - 1]);
      StepKeepsInv(states[k - 1], steps[k - 1]);
      StepKeepsQuiet(states[k - 1], steps[k - 1]);
      assert states[k - 1 + 1] == Apply(states[k - 1], steps[k - 1]);
    }
  }

  /** Buffer ownership on every undisturbed run: permits, the reader's permit and the releases on their
      way are always two; a read never starts filling a buffer that a queued chunk or the
      chunk being decoded points into; and the chunk being decoded is its file's bytes. */
  lemma BuffersAreOwned(states: seq<State>, steps: seq<Step>, k: nat)
    requires IsRun(states, steps) && Undisturbed(states, steps) && k < |states|
    ensures PermitsBalance(states[k])
    ensures states[k].reader.AwaitRead? ==>
              forall m :: m in Stream(states[k]) && m.ChunkMsg? ==> m.buf != states[k].nextFill
    ensures states[k].decoder.Decoding? ==> PointsRight(states[k].bufs, states[k].track, states[k].decoder.msg)
  {
    RunKeepsInv(states, steps, k);
    var s := states[k];
    if s.reader.AwaitRead? {
      BufferIsFree(s);
    }
    if s.decoder.Decoding? {
      DecodingPointsRight(s);
    }
  }

  /** When the decoder takes the end marker it has worked through every chunk that was sent,
      in order and byte for byte; if the reader reached the end, that is the whole track
      from the chunk it was started at. */
  lemma EofMeansAllDecoded(states: seq<State>, steps: seq<Step>, k: nat)
    requires IsRun(states, steps) && Undisturbed(states, steps) && k < |states|
    requires states[k].decoder.Running? && states[k].queue != [] && states[k].queue[0].Eof?
    ensures var s := states[k];
            && AreChunks(s.track, s.from, s.consumed) && s.from + |s.consumed| == s.sent
            && (s.reachedEnd ==> s.from + |s.consumed| == |s.track.bounds|)
  {
    RunKeepsInv(states, steps, k);
    var s := states[k];
    assert Stream(s) == s.queue && s.queue[0].Eof?;
    assert s.queue == [Eof];
    assert Indices(s.queue) == [];
  }

  /** Stale completions are inert: on every run a completion advances the playlist only for
      the active generation, at most once for each, and never for one that was stopped
      while its pipeline was running. */
  lemma StaleCompletionsAreInert(states: seq<State>, steps: seq<Step>, k: nat)
    requires IsRun(states, steps) && k < |steps|
    ensures Distinct(states[k].books.advanced)
    ensures states[k + 1].books.advanced != states[k].books.advanced ==>
              && steps[k].HandleComplete? && states[k + 1].books.advanced == states[k].books.advanced + [states[k].books.active]
              && states[k].books.active !in states[k].books.advanced && states[k].books.active !in states[k].books.stopped
  {
    RunKeepsOnce(states, steps, k);
    OnlyHandlingAdvances(states[k], steps[k]);
    if Advances(states[k]) {
      AdvancesOnce(states[k]);
    }
  }
}
