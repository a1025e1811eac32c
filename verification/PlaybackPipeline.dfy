/** The playback pipeline: the player service, the reader task, the cartridge's read task
    and the decoder task, interleaved in any order. Two read buffers are filled in turn; two
    permits and the release messages behind the chunks keep a buffer from being filled while
    the decoder may still read it. */
module PlaybackPipeline {
  import opened Bytes

  const BUF_COUNT: nat := 2
  const READ_BUF_SIZE: nat := 64 * 1024
  const CHUNK_CRC_BYTES: nat := 4
  const CHUNK_MAX_BYTES: nat := 24 * 1024

  datatype Option<+T> = None | Some(value: T)

  // ----- Tracks -----

  /** The audio area of a track's file, and where its lookup table says each chunk lies. */
  datatype Track = Track(audio: seq<byte>, bounds: seq<(nat, nat)>)

  /** Chunk bounds that pass the lookup's checks. */
  predicate BoundsOk(t: Track, i: nat) {
    && i < |t.bounds| && t.bounds[i].0 <= t.bounds[i].1 <= |t.audio|
    && CHUNK_CRC_BYTES < t.bounds[i].1 - t.bounds[i].0 <= CHUNK_MAX_BYTES
  }

  function ChunkAt(t: Track, i: nat): seq<byte>
    requires BoundsOk(t, i)
  {
    t.audio[t.bounds[i].0..t.bounds[i].1]
  }

  // ----- The state -----

  datatype Msg =
    | ChunkMsg(buf: nat, offset: nat, len: nat, index: nat)
    | Release
    | Eof

  datatype Window = NoWindow | Window(buf: nat, start: nat, len: nat)

  /** Where the reader task stands. */
  datatype Reader =
    | Idle
    | Top
    | FlushBuffer
    | WaitPermit
    | RequestRead
    | AwaitRead
    | GotRead(ok: bool, buf: nat, len: nat)
    | SendChunk
    | Done
    | SendEof

  /** Where the decoder task stands; while completing, its idle bit is set already. */
  datatype Decoder =
    | DecoderIdle
    | Running
    | Decoding(msg: Msg)
    | Completing(generation: nat)

  /** What starting a track brings along: the track, and the chunk to start at. */
  datatype StartArgs = StartArgs(track: Track, chunk: nat)

  /** Where the player service stands. It tests the idle bits first and empties the queues
      later: while it is resetting or starting, both tasks were idle when it looked. Once
      stopped, nothing was started since the queues were emptied. */
  datatype Service =
    | Free
    | Stopping
    | Resetting
    | Stopped
    | Starting(args: StartArgs)

  /** `active` is the generation of the last start and `cancelled` the one stopped last. The
      rest is what happened so far: all completions posted and how many of them the service
      has handled, which generations advanced the playlist, and which were stopped while
      their pipeline was running. */
  datatype Books = Books(
    active: nat, cancelled: nat,
    posted: seq<nat>, handled: nat, advanced: seq<nat>, stopped: set<nat>)

  /** The commands in the two command queues are for the active generation. The last line is
      what happened to the current track: the chunk it was started at, how far it was sent,
      whether the reader came to its end, and the chunks the decoder worked through. */
  datatype State = State(
    books: Books, stop: bool, service: Service,
    readerCmd: Option<nat>, decoderCmd: bool,
    queue: seq<Msg>, permits: nat,
    bufs: seq<seq<byte>>, nextFill: nat,
    track: Track,
    reader: Reader, chunk: nat, window: Window, checkedOut: bool,
    decoder: Decoder,
    from: nat, sent: nat, reachedEnd: bool, consumed: seq<seq<byte>>)

  predicate DecoderBusy(s: State) {
    s.decoder.Running? || s.decoder.Decoding?
  }

  predicate BothIdle(s: State) {
    s.reader.Idle? && !DecoderBusy(s)
  }

  predicate HasRoom(s: State) {
    |s.queue| < BUF_COUNT
  }

  /** The other buffer: the one filled last. */
  function LastFilled(s: State): nat
    requires s.nextFill < BUF_COUNT
  {
    1 - s.nextFill
  }

  // ----- Steps -----

  datatype ReadOutcome =
    /** The cartridge is gone or the file does not open. */
    | NotServed
    | SeekFailed
    | Filled(len: nat)

  datatype Step =
    // The service. A stop of an idle pipeline only resets it.
    | StopIdle | StopBegin | StopEnd | ResetPipeline
    | StartTrack(args: StartArgs) | ReadHeader(bytes: seq<byte>) | StartFails | Launch
    | HandleComplete(next: Option<StartArgs>)
    // The reader, and the cartridge on its behalf.
    | ReaderDequeue | Lookup(ok: bool) | Flush | TakePermit | IssueRead(accepted: bool)
    | CartridgeRead(outcome: ReadOutcome) | TakeResult | Send | Finish | PostEof | ReaderStops
    // The decoder.
    | DecoderDequeue(opens: bool) | Receive | DecodeChunk | DecoderStops
    | PostCompletion(delivered: bool)

  function Reset(s: State): State {
    s.(readerCmd := None, decoderCmd := false, queue := [], permits := BUF_COUNT)
  }

  /** The header read takes the next buffer. */
  function FillHeader(s: State, bytes: seq<byte>): State
    requires s.nextFill < |s.bufs|
  {
    s.(bufs := s.bufs[s.nextFill := bytes], nextFill := if s.nextFill == 0 then 1 else 0)
  }

  function Launched(s: State, args: StartArgs): State {
    Reset(s).(
      books := s.books.(active := s.books.active + 1), stop := false, track := args.track, service := Free,
      readerCmd := Some(args.chunk), decoderCmd := true,
      from := args.chunk, sent := args.chunk, reachedEnd := false, consumed := [])
  }

  predicate CanStart(s: State, args: StartArgs) {
    BothIdle(s) && args.chunk < |args.track.bounds|
  }

  /** A completion moves the playlist on unless its generation was cancelled or superseded. */
  predicate Advances(s: State) {
    && s.books.handled < |s.books.posted|
    && s.books.posted[s.books.handled] != s.books.cancelled && s.books.posted[s.books.handled] == s.books.active
  }

  function Handled(s: State): State {
    s.(books := s.books.(handled := s.books.handled + 1))
  }

  function MovedOn(s: State): State {
    s.(books := s.books.(handled := s.books.handled + 1, advanced := s.books.advanced + [s.books.active]))
  }

  function Complete(s: State, next: Option<StartArgs>): State {
    if s.books.handled >= |s.books.posted| then s
    else if !Advances(s) then Handled(s)
    else if next.Some? && CanStart(s, next.value) then MovedOn(s).(service := Starting(next.value))
    else MovedOn(s)
  }

  /** The service takes its next message. */
  predicate Listening(s: State) {
    s.service.Free? || s.service.Stopped?
  }

  function ServiceStep(s: State, step: Step): State {
    match step
    case StopIdle => if Listening(s) && BothIdle(s) then s.(service := Resetting) else s
    case StopBegin =>
      if Listening(s) && !BothIdle(s)
      then s.(stop := true, service := Stopping,
              books := s.books.(cancelled := s.books.active, stopped := s.books.stopped + {s.books.active}))
      else s
    case StopEnd => if s.service.Stopping? && BothIdle(s) then s.(service := Resetting) else s
    case ResetPipeline => if s.service.Resetting? then Reset(s).(service := Stopped) else s
    case StartTrack(args) => if s.service.Stopped? && CanStart(s, args) then s.(service := Starting(args)) else s
    case ReadHeader(bytes) => if s.service.Starting? && s.nextFill < |s.bufs| then FillHeader(s, bytes) else s
    case StartFails => if s.service.Starting? then s.(service := Free) else s
    case Launch => if s.service.Starting? then Launched(s, s.service.args) else s
    case HandleComplete(next) => if Listening(s) then Complete(s, next) else s
    case _ => s
  }

  /** A task takes its command from its command queue. */
  predicate TakesCommand(s: State, step: Step) {
    || (step.ReaderDequeue? && s.reader.Idle? && s.readerCmd.Some?)
    || (step.DecoderDequeue? && s.decoder.DecoderIdle? && s.decoderCmd)
  }

  /** A task takes its command after the service saw it idle, and before the queues are
      emptied. */
  predicate Disturbs(s: State, step: Step) {
    (s.service.Resetting? || s.service.Starting?) && TakesCommand(s, step)
  }

  /** The chunk lies inside the window the reader holds. */
  predicate Fits(s: State) {
    s.window.Window? && s.chunk < |s.track.bounds| &&
    var (start, end) := s.track.bounds[s.chunk];
    s.window.start <= start && end <= s.window.start + s.window.len
  }

  function LookupStep(s: State, ok: bool): State {
    if s.chunk >= |s.track.bounds| then s.(reader := Done, reachedEnd := true)
    else if !ok || !BoundsOk(s.track, s.chunk) then s.(reader := Done)
    else if Fits(s) then s.(reader := SendChunk)
    else if s.window.Window? then s.(reader := FlushBuffer)
    else s.(reader := WaitPermit)
  }

  /** The cartridge fills its buffers in turn; a refused request takes none. */
  function ReadStep(s: State, outcome: ReadOutcome): State
    requires s.nextFill < |s.bufs| && BoundsOk(s.track, s.chunk)
  {
    var start := s.track.bounds[s.chunk].0;
    var other := if s.nextFill == 0 then 1 else 0;
    match outcome
    case NotServed => s.(reader := GotRead(false, 0, 0))
    case SeekFailed => s.(nextFill := other, reader := GotRead(false, 0, 0))
    case Filled(len) =>
      if len > READ_BUF_SIZE || start + len > |s.track.audio| then s
      else s.(bufs := s.bufs[s.nextFill := s.track.audio[start..start + len]], nextFill := other,
              reader := GotRead(true, s.nextFill, len))
  }

  function ResultStep(s: State): State
    requires s.reader.GotRead? && BoundsOk(s.track, s.chunk)
  {
    var (start, end) := s.track.bounds[s.chunk];
    if !s.reader.ok || s.reader.len < end - start
    then s.(permits := s.permits + 1, checkedOut := false, window := NoWindow, reader := Done)
    else s.(window := Window(s.reader.buf, start, s.reader.len), reader := SendChunk)
  }

  function SendStep(s: State): State
    requires Fits(s)
  {
    var (start, end) := s.track.bounds[s.chunk];
    if start > end then s
    else s.(queue := s.queue + [ChunkMsg(s.window.buf, start - s.window.start, end - start, s.chunk)],
            chunk := s.chunk + 1, sent := s.chunk + 1, reader := Top)
  }

  function FlushStep(s: State): State {
    s.(queue := s.queue + [Release], checkedOut := false, reader := WaitPermit)
  }

  function FinishStep(s: State): State {
    s.(permits := if s.checkedOut then s.permits + 1 else s.permits, checkedOut := false, reader := SendEof)
  }

  function EofStep(s: State): State {
    s.(queue := s.queue + [Eof], reader := Idle)
  }

  /** A stop request is seen where the reader looks for one: at the top of its loop, before
      and after a read, and wherever it waits for room or for a permit. */
  function ReaderStopStep(s: State): State {
    match s.reader
    case Top => s.(reader := Done)
    case FlushBuffer => if HasRoom(s) then s else s.(reader := Done)
    case WaitPermit => if s.permits > 0 then s else s.(reader := Done)
    case RequestRead => s.(reader := Done)
    case GotRead(_, _, _) => s.(reader := Done)
    case SendChunk => if HasRoom(s) then s else s.(reader := Done)
    case SendEof => if HasRoom(s) then s else s.(reader := Idle)
    case _ => s
  }

  function ReaderStep(s: State, step: Step): State {
    match step
    case ReaderDequeue =>
      if s.reader.Idle? && s.readerCmd.Some?
      then s.(readerCmd := None, reader := Top, chunk := s.readerCmd.value, window := NoWindow, checkedOut := false)
      else s
    case Lookup(ok) => if s.reader.Top? then LookupStep(s, ok) else s
    case Flush =>
      if s.reader.FlushBuffer? && HasRoom(s) then FlushStep(s) else s
    case TakePermit =>
      if s.reader.WaitPermit? && s.permits > 0
      then s.(permits := s.permits - 1, checkedOut := true, reader := RequestRead) else s
    case IssueRead(accepted) =>
      if !s.reader.RequestRead? then s
      else if accepted then s.(reader := AwaitRead)
      else s.(permits := s.permits + 1, checkedOut := false, window := NoWindow, reader := Done)
    case CartridgeRead(outcome) =>
      if s.reader.AwaitRead? && s.nextFill < |s.bufs| && BoundsOk(s.track, s.chunk) then ReadStep(s, outcome) else s
    case TakeResult => if s.reader.GotRead? && BoundsOk(s.track, s.chunk) then ResultStep(s) else s
    case Send => if s.reader.SendChunk? && HasRoom(s) && Fits(s) then SendStep(s) else s
    case Finish =>
      if s.reader.Done? then FinishStep(s) else s
    case PostEof => if s.reader.SendEof? && HasRoom(s) then EofStep(s) else s
    case ReaderStops => if s.stop then ReaderStopStep(s) else s
    case _ => s
  }

  /** The bytes a chunk message points at. */
  function Pointed(s: State, m: Msg): seq<byte>
    requires m.ChunkMsg? && m.buf < |s.bufs| && m.offset + m.len <= |s.bufs[m.buf]|
  {
    s.bufs[m.buf][m.offset..m.offset + m.len]
  }

  predicate CanPoint(s: State, m: Msg) {
    m.ChunkMsg? && m.buf < |s.bufs| && m.offset + m.len <= |s.bufs[m.buf]|
  }

  function ReceiveStep(s: State): State
    requires s.queue != []
  {
    var t := s.(queue := s.queue[1..]);
    match s.queue[0]
    case Eof => t.(decoder := Completing(s.books.active))
    case Release => t.(permits := s.permits + 1)
    case ChunkMsg(_, _, _, _) => t.(decoder := Decoding(s.queue[0]))
  }

  function DecodedStep(s: State): State
    requires s.decoder.Decoding? && CanPoint(s, s.decoder.msg)
  {
    s.(consumed := s.consumed + [Pointed(s, s.decoder.msg)], decoder := Running)
  }

  function DecoderStep(s: State, step: Step): State {
    match step
    case DecoderDequeue(opens) =>
      if s.decoder.DecoderIdle? && s.decoderCmd
      then s.(decoderCmd := false, decoder := if opens then Running else Completing(s.books.active)) else s
    case Receive => if s.decoder.Running? && s.queue != [] then ReceiveStep(s) else s
    case DecodeChunk =>
      if s.decoder.Decoding? && CanPoint(s, s.decoder.msg) then DecodedStep(s) else s
    case DecoderStops => if s.stop && DecoderBusy(s) then s.(decoder := Completing(s.books.active)) else s
    case PostCompletion(delivered) =>
      if s.decoder.Completing?
      then s.(decoder := DecoderIdle,
              books := if delivered then s.books.(posted := s.books.posted + [s.decoder.generation]) else s.books)
      else s
    case _ => s
  }

  predicate OfService(step: Step) {
    || step.StopIdle? || step.StopBegin? || step.StopEnd? || step.ResetPipeline? || step.StartTrack? || step.ReadHeader?
    || step.StartFails? || step.Launch? || step.HandleComplete?
  }

  predicate OfDecoder(step: Step) {
    step.DecoderDequeue? || step.Receive? || step.DecodeChunk? || step.DecoderStops? || step.PostCompletion?
  }

  function Apply(s: State, step: Step): State {
    if OfService(step) then ServiceStep(s, step)
    else if OfDecoder(step) then DecoderStep(s, step)
    else ReaderStep(s, step)
  }
}
