/** What the pipeline can always still do, and what a disturbance can do to it. */
module PipelineProgress {
  import opened Bytes
  import opened PlaybackPipeline
  import opened PipelineLaws

  // ----- Runs as traces -----

  ghost function After(s: State, steps: seq<Step>): State
    decreases |steps|
  {
    if steps == [] then s else After(Apply(s, steps[0]), steps[1..])
  }

  ghost function Trace(s: State, steps: seq<Step>): (states: seq<State>)
    ensures |states| == |steps| + 1 && states[0] == s && states[|steps|] == After(s, steps)
    ensures forall k :: 0 <= k < |steps| ==> states[k + 1] == Apply(states[k], steps[k])
    decreases |steps|
  {
    if steps == [] then [s]
    else
      var rest := Trace(Apply(s, steps[0]), steps[1..]);
      TraceOne(s, steps, rest);
      [s] + rest
  }

  lemma TraceOne(s: State, steps: seq<Step>, rest: seq<State>)
    requires steps != [] && |rest| == |steps| && rest[0] == Apply(s, steps[0])
    requires forall k :: 0 <= k < |steps| - 1 ==> rest[k + 1] == Apply(rest[k], steps[1..][k])
    ensures forall k :: 0 <= k < |steps| ==> ([s] + rest)[k + 1] == Apply(([s] + rest)[k], steps[k])
  {
    var all := [s] + rest;
    forall k | 0 <= k < |steps| ensures all[k + 1] == Apply(all[k], steps[k]) {
      if k > 0 {
        assert rest[k - 1 + 1] == Apply(rest[k - 1], steps[1..][k - 1]);
      }
    }
  }

  lemma AfterOne(s: State, step: Step, rest: seq<Step>)
    ensures After(s, [step] + rest) == After(Apply(s, step), rest)
  {
    assert ([step] + rest)[1..] == rest;
  }

  // ----- The end marker always comes -----

  /** A track that is being played, and not being stopped, has its reader at work or its end
      marker on the way. */
  ghost predicate EofComing(s: State) {
    Attached(s) && !s.stop && s.reader.Idle? && s.readerCmd.None? ==> Eof in Stream(s)
  }

  lemma ServiceKeepsEof(s: State, step: Step)
    requires EofComing(s) && Quiet(s) && OfService(step)
    ensures EofComing(ServiceStep(s, step))
  {
    match step
    case ReadHeader(bytes) => assert Stream(ServiceStep(s, step)) == Stream(s);
    case HandleComplete(next) =>
      assert OnlyBookkeeping(s, ServiceStep(s, step)) by {
        CompletingIsBookkeeping(s, next);
      }
      assert Stream(ServiceStep(s, step)) == Stream(s) && ServiceStep(s, step).stop == s.stop;
    case ResetPipeline =>
    case Launch =>
    case StopIdle => LookingKeepsEof(s, step);
    case StopBegin => LookingKeepsEof(s, step);
    case StopEnd => LookingKeepsEof(s, step);
    case StartTrack(args) => LookingKeepsEof(s, step);
    case StartFails => LookingKeepsEof(s, step);
  }

  lemma LookingKeepsEof(s: State, step: Step)
    requires EofComing(s)
    requires step.StopIdle? || step.StopBegin? || step.StopEnd? || step.StartTrack? || step.StartFails?
    ensures EofComing(ServiceStep(s, step))
  {
    LookingIsBookkeeping(s, step);
    assert Stream(ServiceStep(s, step)) == Stream(s);
  }

  /** Taking a message that is not the end marker leaves the end marker on its way. */
  lemma ReceiveKeepsEof(s: State)
    requires EofComing(s) && Shape(s) && s.decoder.Running? && s.queue != []
    ensures EofComing(ReceiveStep(s))
  {
    assert Stream(s) == s.queue == [s.queue[0]] + s.queue[1..];
    if s.queue[0].ChunkMsg? {
      assert Stream(ReceiveStep(s)) == s.queue;
    } else {
      assert Stream(ReceiveStep(s)) == s.queue[1..];
    }
  }

  lemma DecodeKeepsEof(s: State)
    requires EofComing(s) && Shape(s) && s.decoder.Decoding? && CanPoint(s, s.decoder.msg)
    ensures EofComing(DecodedStep(s))
  {
    assert Stream(s) == [s.decoder.msg] + s.queue && Stream(DecodedStep(s)) == s.queue;
  }

  lemma DecoderKeepsEof(s: State, step: Step)
    requires EofComing(s) && Shape(s) && OfDecoder(step)
    ensures EofComing(DecoderStep(s, step))
  {
    match step
    case Receive =>
      if s.decoder.Running? && s.queue != [] {
        ReceiveKeepsEof(s);
      }
    case DecodeChunk =>
      if s.decoder.Decoding? && CanPoint(s, s.decoder.msg) {
        DecodeKeepsEof(s);
      }
    case DecoderStops =>
    case DecoderDequeue(opens) => assert Stream(DecoderStep(s, step)) == Stream(s);
    case PostCompletion(delivered) => assert Stream(DecoderStep(s, step)) == Stream(s);
  }

  /** The reader comes to rest only behind its end marker, or when it is stopped. */
  lemma ReaderRests(s: State, step: Step)
    requires !OfService(step) && !OfDecoder(step) && ReaderStep(s, step).reader.Idle? && !s.reader.Idle?
    ensures s.stop || (step.PostEof? && ReaderStep(s, step) == EofStep(s))
  {
  }

  lemma IdleReaderRests(s: State, step: Step)
    requires !OfService(step) && !OfDecoder(step) && s.reader.Idle? && ReaderStep(s, step).reader.Idle?
    ensures ReaderStep(s, step) == s
  {
  }

  lemma ReaderKeepsStop(s: State, step: Step)
    requires !OfService(step) && !OfDecoder(step)
    ensures ReaderStep(s, step).stop == s.stop
  {
    if step.ReaderStops? {
      assert ReaderStopStep(s).stop == s.stop;
    } else if step.Lookup? {
      assert LookupStep(s, step.ok).stop == s.stop;
    }
  }

  lemma ReaderKeepsEof(s: State, step: Step)
    requires EofComing(s) && !OfService(step) && !OfDecoder(step)
    ensures EofComing(ReaderStep(s, step))
  {
    var t := ReaderStep(s, step);
    ReaderKeepsStop(s, step);
    if t.reader.Idle? && !t.stop {
      if s.reader.Idle? {
        IdleReaderRests(s, step);
      } else {
        ReaderRests(s, step);
        assert Eof == t.queue[|t.queue| - 1] && t.queue[|t.queue| - 1] in Stream(t);
      }
    }
  }

  lemma StepKeepsEof(s: State, step: Step)
    requires EofComing(s) && Quiet(s) && Shape(s)
    ensures EofComing(Apply(s, step))
  {
    if OfService(step) {
      ServiceKeepsEof(s, step);
    } else if OfDecoder(step) {
      DecoderKeepsEof(s, step);
    } else {
      ReaderKeepsEof(s, step);
    }
  }

  lemma {:induction false} RunKeepsEof(states: seq<State>, steps: seq<Step>, k: nat)
    requires IsRun(states, steps) && Undisturbed(states, steps) && k < |states|
    ensures EofComing(states[k])
  {
    if k > 0 {
      RunKeepsEof(states, steps, k - 1);
      RunKeepsInv(states, steps, k - 1);
      StepKeepsEof(states[k - 1], steps[k - 1]);
      assert states[k - 1 + 1] == Apply(states[k - 1], steps[k - 1]);
    }
  }

  // ----- Progress -----

  /** Every chunk of the track can be looked up. */
  ghost predicate Playable(t: Track) {
    forall i :: 0 <= i < |t.bounds| ==> BoundsOk(t, i)
  }

  /** A track is being played and nobody is stopping it. */
  ghost predicate Playing(s: State) {
    Inv(s) && EofComing(s) && Attached(s) && !s.stop && s.service.Free? && Playable(s.track)
  }

  /** The decoder is about to take the end marker. */
  ghost predicate AtEof(s: State) {
    s.decoder.Running? && s.queue != [] && s.queue[0].Eof?
  }

  /** No read has failed so far. */
  ghost predicate Smooth(s: State) {
    && (s.readerCmd.Some? || InLoop(s.reader) || s.reachedEnd)
    && (s.reader.GotRead? && s.chunk < |s.track.bounds| ==>
          s.reader.ok && s.reader.len + s.track.bounds[s.chunk].0 >= s.track.bounds[s.chunk].1)
  }

  /** How far the reader still has to go. */
  ghost function ReaderRank(s: State): nat
    requires s.sent <= |s.track.bounds|
  {
    var left: nat := 8 * (|s.track.bounds| - s.sent);
    if s.readerCmd.Some? then left + 10
    else
      match s.reader
      case Idle => 0
      case SendEof => 1
      case Done => 2
      case SendChunk => left + 3
      case GotRead(_, _, _) => left + 4
      case AwaitRead => left + 5
      case RequestRead => left + 6
      case WaitPermit => left + 7
      case FlushBuffer => left + 8
      case Top => left + 9
  }

  ghost function DecoderRank(s: State): nat {
    (if s.decoder.Completing? then 2 else 0) + (if s.decoderCmd then 1 else 0) +
    (if s.decoder.Decoding? then 1 else 0) + 2 * |s.queue|
  }

  ghost function Rank(s: State): nat
    requires s.sent <= |s.track.bounds|
  {
    3 * ReaderRank(s) + DecoderRank(s)
  }

  /** The longest read the cartridge can serve at the reader's chunk. */
  ghost function WholeRead(s: State): nat {
    if s.chunk < |s.track.bounds| && s.track.bounds[s.chunk].0 <= |s.track.audio| then
      var left: nat := |s.track.audio| - s.track.bounds[s.chunk].0;
      if left < READ_BUF_SIZE then left else READ_BUF_SIZE
    else 0
  }

  ghost function ReaderNext(s: State): Step {
    if s.readerCmd.Some? then ReaderDequeue
    else
      match s.reader
      case Top => Lookup(true)
      case FlushBuffer => Flush
      case WaitPermit => TakePermit
      case RequestRead => IssueRead(true)
      case AwaitRead => CartridgeRead(Filled(WholeRead(s)))
      case GotRead(_, _, _) => TakeResult
      case SendChunk => Send
      case Done => Finish
      case SendEof => PostEof
      case Idle => Finish
  }

  /** The decoder goes first; with nothing to decode, the reader does. */
  ghost function Next(s: State): Step {
    if s.decoder.Completing? then PostCompletion(true)
    else if s.decoder.DecoderIdle? then DecoderDequeue(true)
    else if s.decoder.Decoding? then DecodeChunk
    else if s.queue != [] then Receive
    else ReaderNext(s)
  }

  lemma DecoderGetsCloser(s: State)
    requires Playing(s) && !AtEof(s) && (!s.decoder.Running? || s.queue != [])
    ensures var t := Apply(s, Next(s));
            && OfDecoder(Next(s)) && Attached(t) && t.stop == s.stop && t.service == s.service && t.track == s.track
            && t.sent == s.sent && DecoderRank(t) < DecoderRank(s)
            && t.reader == s.reader && t.readerCmd == s.readerCmd && t.chunk == s.chunk && t.reachedEnd == s.reachedEnd
  {
    if s.decoder.Decoding? {
      DecodingPointsRight(s);
    }
  }

  /** With nothing on the way, the reader has a step to take. */
  lemma ReaderCanMove(s: State)
    requires Playing(s) && s.decoder.Running? && s.queue == []
    ensures s.readerCmd.Some? || !s.reader.Idle?
    ensures s.reader.WaitPermit? ==> s.permits > 0
    ensures Stream(s) == []
  {
    assert Stream(s) == [];
  }

  /** What the reader's own progress rests on. */
  ghost predicate ReaderSound(s: State) {
    && s.nextFill < |s.bufs| && s.sent <= |s.track.bounds| && Playable(s.track)
    && (s.readerCmd.Some? ==> s.reader.Idle? && s.readerCmd.value == s.sent)
    && (InLoop(s.reader) ==> s.chunk == s.sent)
    && (InLoop(s.reader) && !s.reader.Top? ==> BoundsOk(s.track, s.chunk))
    && (s.reader.SendChunk? ==> Fits(s))
    && (s.reachedEnd ==> s.readerCmd.None? && !InLoop(s.reader))
  }

  /** The reader's step brings its end closer. */
  ghost predicate ReaderCloser(s: State, t: State)
    requires s.sent <= |s.track.bounds|
  {
    && t.stop == s.stop && t.track == s.track && t.sent <= |t.track.bounds|
    && ReaderRank(t) < ReaderRank(s) && |t.queue| <= |s.queue| + 1 && (Smooth(s) ==> Smooth(t))
  }

  lemma LookupGetsCloser(s: State)
    requires ReaderSound(s) && s.reader.Top?
    ensures ReaderCloser(s, LookupStep(s, true))
  {
  }

  lemma ReadGetsCloser(s: State)
    requires ReaderSound(s) && s.reader.AwaitRead?
    ensures ReaderCloser(s, ReadStep(s, Filled(WholeRead(s))))
  {
  }

  lemma ResultGetsCloser(s: State)
    requires ReaderSound(s) && s.reader.GotRead?
    ensures ReaderCloser(s, ResultStep(s))
  {
  }

  lemma SendGetsCloser(s: State)
    requires ReaderSound(s) && s.reader.SendChunk?
    ensures ReaderCloser(s, SendStep(s))
  {
  }

  lemma QueueingGetsCloser(s: State)
    requires ReaderSound(s) && s.readerCmd.None?
    ensures s.reader.FlushBuffer? ==> ReaderCloser(s, FlushStep(s))
    ensures s.reader.Done? ==> ReaderCloser(s, FinishStep(s))
    ensures s.reader.SendEof? ==> ReaderCloser(s, EofStep(s))
  {
  }

  lemma TakingGetsCloser(s: State, step: Step)
    requires ReaderSound(s)
    requires || (step == ReaderDequeue && s.readerCmd.Some?)
             || (step == TakePermit && s.reader.WaitPermit? && s.permits > 0)
             || (step == IssueRead(true) && s.reader.RequestRead?)
    ensures ReaderCloser(s, ReaderStep(s, step))
  {
  }

  lemma ReaderGetsCloser(s: State)
    requires ReaderSound(s) && s.queue == [] && (s.reader.WaitPermit? ==> s.permits > 0)
    requires s.readerCmd.Some? || !s.reader.Idle?
    ensures ReaderCloser(s, ReaderStep(s, ReaderNext(s)))
  {
    if s.readerCmd.Some? || s.reader.WaitPermit? || s.reader.RequestRead? {
      TakingGetsCloser(s, ReaderNext(s));
    } else {
      match s.reader
      case Top => LookupGetsCloser(s);
      case AwaitRead => ReadGetsCloser(s);
      case GotRead(_, _, _) => ResultGetsCloser(s);
      case SendChunk => SendGetsCloser(s);
      case FlushBuffer => QueueingGetsCloser(s);
      case Done => QueueingGetsCloser(s);
      case SendEof => QueueingGetsCloser(s);
    }
  }

  lemma ReaderNextGetsCloser(s: State)
    requires Playing(s) && s.decoder.Running? && s.queue == []
    ensures var t := Apply(s, Next(s));
            !OfService(Next(s)) && Playing(t) && Rank(t) < Rank(s) && (Smooth(s) ==> Smooth(t))
  {
    ReaderCanMove(s);
    ReaderGetsCloser(s);
    ReaderKeepsBooks(s, Next(s));
    ReaderKeepsInv(s, Next(s));
    ReaderKeepsEof(s, Next(s));
  }

  lemma DecoderNextGetsCloser(s: State)
    requires Playing(s) && !AtEof(s) && (!s.decoder.Running? || s.queue != [])
    ensures var t := Apply(s, Next(s));
            !OfService(Next(s)) && Playing(t) && Rank(t) < Rank(s) && (Smooth(s) ==> Smooth(t))
  {
    DecoderGetsCloser(s);
    DecoderKeepsInv(s, Next(s));
    DecoderKeepsEof(s, Next(s));
  }

  lemma NextGetsCloser(s: State)
    requires Playing(s) && !AtEof(s)
    ensures var t := Apply(s, Next(s));
            !OfService(Next(s)) && Playing(t) && Rank(t) < Rank(s) && (Smooth(s) ==> Smooth(t))
  {
    if s.decoder.Running? && s.queue == [] {
      ReaderNextGetsCloser(s);
    } else {
      DecoderNextGetsCloser(s);
    }
  }

  lemma EofAfterWholeTrack(s: State)
    requires Playing(s) && AtEof(s) && Smooth(s)
    ensures s.reachedEnd
  {
    assert Stream(s) == s.queue && Eof in Stream(s);
  }

  /** From any state in which a track is being played, steps of the reader, the cartridge and
      the decoder alone bring the decoder to the end marker; and, if no read has failed yet,
      with the whole track sent. */
  lemma {:induction false} EndCanBeReached(s: State) returns (steps: seq<Step>)
    requires Playing(s)
    ensures Playing(After(s, steps)) && AtEof(After(s, steps)) && forall step :: step in steps ==> !OfService(step)
    ensures Smooth(s) ==> After(s, steps).reachedEnd
    decreases Rank(s)
  {
    if AtEof(s) {
      steps := [];
      if Smooth(s) {
        EofAfterWholeTrack(s);
      }
    } else {
      NextGetsCloser(s);
      var rest := EndCanBeReached(Apply(s, Next(s)));
      steps := [Next(s)] + rest;
      AfterOne(s, Next(s), rest);
    }
  }

  /** So in every undisturbed run: a playable track that is being played, and not being
      stopped, can always still be brought to its end. */
  lemma PlayingTrackCanEnd(states: seq<State>, steps: seq<Step>, k: nat) returns (more: seq<Step>)
    requires IsRun(states, steps) && Undisturbed(states, steps) && k < |states|
    requires Attached(states[k]) && !states[k].stop && states[k].service.Free? && Playable(states[k].track)
    ensures AtEof(After(states[k], more)) && forall step :: step in more ==> !OfService(step)
    ensures Smooth(states[k]) ==> After(states[k], more).reachedEnd
  {
    RunKeepsInv(states, steps, k);
    RunKeepsEof(states, steps, k);
    more := EndCanBeReached(states[k]);
  }

  // ----- What a disturbance can do -----

  /** A track started from power-up, both commands waiting. */
  ghost function StartingSteps(t: Track): seq<Step> {
    [StopIdle, ResetPipeline, StartTrack(StartArgs(t, 0)), Launch]
  }

  /** A stop of a pipeline whose tasks have not taken their commands yet; the reader takes
      its command, and a permit, before the queues are emptied. */
  ghost function DisturbingSteps(): seq<Step> {
    [StopIdle, ReaderDequeue, Lookup(true), TakePermit, ResetPipeline]
  }

  lemma {:induction false} AfterBoth(s: State, first: seq<Step>, second: seq<Step>)
    ensures After(s, first + second) == After(After(s, first), second)
    ensures Trace(s, first + second)[|first|] == After(s, first)
    decreases |first|
  {
    if first == [] {
      assert first + second == second;
    } else {
      assert (first + second)[0] == first[0] && (first + second)[1..] == first[1..] + second;
      AfterBoth(Apply(s, first[0]), first[1..], second);
    }
  }

  lemma CommandsWait(s: State, t: Track)
    requires Start(s) && t.bounds != []
    ensures var u := After(s, StartingSteps(t));
            u.service == Free && u.readerCmd == Some(0) && BothIdle(u) && u.track == t && u.permits == BUF_COUNT
  {
    var states := Trace(s, StartingSteps(t));
    assert states[1] == Apply(states[0], StopIdle) && states[2] == Apply(states[1], ResetPipeline);
    assert states[3] == Apply(states[2], StartTrack(StartArgs(t, 0))) && states[4] == Apply(states[3], Launch);
  }

  lemma ReaderTakesPermit(s: State)
    requires s.service == Free && s.readerCmd == Some(0) && BothIdle(s) && BoundsOk(s.track, 0) && s.permits == BUF_COUNT
    ensures var u := After(s, DisturbingSteps());
            u.permits == BUF_COUNT && u.checkedOut
    ensures Disturbs(Trace(s, DisturbingSteps())[1], ReaderDequeue)
  {
    var states := Trace(s, DisturbingSteps());
    assert states[1] == Apply(states[0], StopIdle) && states[2] == Apply(states[1], ReaderDequeue);
    assert states[3] == Apply(states[2], Lookup(true)) && states[4] == Apply(states[3], TakePermit);
    assert states[5] == Apply(states[4], ResetPipeline);
  }

  /** Then there are three permits: the balance can be broken by a disturbance, for every
      track that can be played at all. */
  lemma DisturbedRunBreaksBalance(s: State, t: Track)
    requires Start(s) && BoundsOk(t, 0)
    ensures var steps := StartingSteps(t) + DisturbingSteps();
            var states := Trace(s, steps);
            IsRun(states, steps) && !Undisturbed(states, steps) && !PermitsBalance(states[|steps|])
  {
    var first, second := StartingSteps(t), DisturbingSteps();
    AfterBoth(s, first, second);
    CommandsWait(s, t);
    ReaderTakesPermit(After(s, first));
    var states, steps := Trace(s, first + second), first + second;
    assert steps[|first|] == StopIdle && steps[|first| + 1] == ReaderDequeue;
    assert states[|first| + 1] == Apply(states[|first|], steps[|first|]);
    assert Trace(After(s, first), second)[1] == Apply(After(s, first), second[0]);
    assert Disturbs(states[|first| + 1], steps[|first| + 1]);
  }
}
