/** What the service can bring about: a finished track moves the playlist on, a stop always
    comes to an end, and any track can be started from anywhere. */
module PipelineControl {
  import opened Bytes
  import opened PlaybackPipeline
  import opened PipelineLaws
  import opened PipelineProgress

  // ----- Generations -----

  /** A generation marked cancelled was stopped while its pipeline ran, and nothing is posted
      before the first start. */
  ghost predicate Booked(s: State) {
    && (s.books.cancelled == 0 || s.books.cancelled in s.books.stopped)
    && (forall g :: g in s.books.posted ==> g > 0)
    && (s.decoder.Completing? ==> s.decoder.generation > 0)
    && (Attached(s) ==> s.books.active > 0)
    && (s.service.Stopping? ==> s.stop)
    && (s.books.active in s.books.stopped ==> s.stop)
    && (forall g :: g in s.books.stopped ==> g <= s.books.active)
  }

  /** What `Booked` looks at is the same, or a stop has ended. */
  ghost predicate SameGenerations(s: State, t: State) {
    && t.books.cancelled == s.books.cancelled && t.books.stopped == s.books.stopped && t.books.active == s.books.active
    && t.books.posted == s.books.posted && t.decoder == s.decoder && (Attached(t) ==> Attached(s)) && t.stop == s.stop
    && (t.service.Stopping? ==> s.service.Stopping?)
  }

  lemma CompletingIsSame(s: State, next: Option<StartArgs>)
    ensures SameGenerations(s, Complete(s, next))
  {
  }

  lemma OtherServiceStepsAreSame(s: State, step: Step)
    requires OfService(step) && !step.HandleComplete? && !step.StopBegin? && !step.Launch?
    ensures SameGenerations(s, ServiceStep(s, step))
  {
  }

  lemma LaunchKeepsBooked(s: State, args: StartArgs)
    requires Booked(s)
    ensures Booked(Launched(s, args))
  {
  }

  lemma ServiceKeepsBooked(s: State, step: Step)
    requires Booked(s) && OfService(step)
    ensures Booked(ServiceStep(s, step))
  {
    match step
    case HandleComplete(next) => CompletingIsSame(s, next);
    case Launch =>
      if s.service.Starting? {
        LaunchKeepsBooked(s, s.service.args);
      }
    case StopBegin =>
    case _ => OtherServiceStepsAreSame(s, step);
  }

  lemma DecoderKeepsBooked(s: State, step: Step)
    requires Booked(s) && OfDecoder(step)
    ensures Booked(DecoderStep(s, step))
  {
  }

  lemma StepKeepsBooked(s: State, step: Step)
    requires Booked(s)
    ensures Booked(Apply(s, step))
  {
    if OfService(step) {
      ServiceKeepsBooked(s, step);
    } else if OfDecoder(step) {
      DecoderKeepsBooked(s, step);
    } else {
      ReaderKeepsBooks(s, step);
    }
  }

  lemma {:induction false} RunKeepsBooked(states: seq<State>, steps: seq<Step>, k: nat)
    requires IsRun(states, steps) && k < |states|
    ensures Booked(states[k])
  {
    if k > 0 {
      RunKeepsBooked(states, steps, k - 1);
      StepKeepsBooked(states[k - 1], steps[k - 1]);
      assert states[k - 1 + 1] == Apply(states[k - 1], steps[k - 1]);
    }
  }

  // ----- A completion -----

  /** The next message is handled and nothing else happens. */
  ghost predicate OnlyHandles(s: State, t: State) {
    t == s.(books := s.books.(handled := s.books.handled + 1, advanced := t.books.advanced), service := t.service)
  }

  /** On every run: the service's next completion moves the playlist on if and only if it is
      of the active generation and that was not stopped while its pipeline ran; then the next
      track is started, if there is one to start and both tasks are idle. */
  lemma CompletionMovesOn(states: seq<State>, steps: seq<Step>, k: nat, next: Option<StartArgs>)
    requires IsRun(states, steps) && k < |steps| && steps[k] == HandleComplete(next)
    requires states[k].service.Free? || states[k].service.Stopped?
    requires states[k].books.handled < |states[k].books.posted|
    ensures var s, t := states[k], states[k + 1];
            var g := s.books.posted[s.books.handled];
            && OnlyHandles(s, t)
            && t.books.advanced == s.books.advanced + (if g == s.books.active && g !in s.books.stopped then [g] else [])
            && t.service ==
               (if g == s.books.active && g !in s.books.stopped && next.Some? && s.reader.Idle? && !DecoderBusy(s) &&
                   next.value.chunk < |next.value.track.bounds|
                then Starting(next.value) else s.service)
  {
    RunKeepsOnce(states, steps, k);
    RunKeepsBooked(states, steps, k);
    var s := states[k];
    assert states[k + 1] == Apply(s, steps[k]) == Complete(s, next);
    assert s.books.posted[s.books.handled] in s.books.posted;
    assert s.books.advanced + [] == s.books.advanced;
  }

  // ----- States of undisturbed runs -----

  ghost predicate Sound(s: State) {
    Inv(s) && Quiet(s) && CompletionsOnce(s) && Booked(s)
  }

  lemma StepKeepsSound(s: State, step: Step)
    requires Sound(s) && !Disturbs(s, step)
    ensures Sound(Apply(s, step))
  {
    StepKeepsInv(s, step);
    StepKeepsQuiet(s, step);
    StepKeepsOnce(s, step);
    StepKeepsBooked(s, step);
  }

  lemma RunIsSound(states: seq<State>, steps: seq<Step>, k: nat)
    requires IsRun(states, steps) && Undisturbed(states, steps) && k < |states|
    ensures Sound(states[k])
  {
    RunKeepsInv(states, steps, k);
    RunKeepsOnce(states, steps, k);
    RunKeepsBooked(states, steps, k);
  }

  // ----- Stopping -----

  /** How far the reader is from its idle bit once a stop is asked for. */
  ghost function ReaderLeft(s: State): nat {
    match s.reader
    case Idle => 0
    case SendEof => 1
    case Done => 2
    case Top => 3
    case RequestRead => 3
    case GotRead(_, _, _) => 3
    case WaitPermit => 4
    case AwaitRead => 4
    case SendChunk => 4
    case FlushBuffer => 5
  }

  ghost function StopLeft(s: State): nat {
    ReaderLeft(s) + if DecoderBusy(s) then 1 else 0
  }

  /** What brings the tasks closer to their idle bits: the reader gives up where it looks for
      a stop, and goes on where it does not. */
  ghost function StopNext(s: State): Step {
    if DecoderBusy(s) then DecoderStops
    else
      match s.reader
      case AwaitRead => CartridgeRead(NotServed)
      case Done => Finish
      case FlushBuffer => if HasRoom(s) then Flush else ReaderStops
      case WaitPermit => if s.permits > 0 then TakePermit else ReaderStops
      case SendChunk => if HasRoom(s) then Send else ReaderStops
      case SendEof => if HasRoom(s) then PostEof else ReaderStops
      case _ => ReaderStops
  }

  /** What the reader's way to its idle bit rests on. */
  ghost predicate CanGoOn(s: State) {
    && s.nextFill < |s.bufs| && (s.reader.SendChunk? ==> Fits(s) && BoundsOk(s.track, s.chunk))
    && (s.reader.AwaitRead? ==> BoundsOk(s.track, s.chunk))
  }

  ghost predicate OnlyReader(s: State, t: State) {
    t.stop == s.stop && t.service == s.service && t.books == s.books && t.decoder == s.decoder
  }

  lemma SendingStops(s: State)
    requires CanGoOn(s) && s.reader.SendChunk? && HasRoom(s)
    ensures SendStep(s).reader == Top && OnlyReader(s, SendStep(s))
  {
  }

  lemma ReaderGetsToStop(s: State)
    requires CanGoOn(s) && s.stop && !DecoderBusy(s) && !s.reader.Idle?
    ensures var t := ReaderStep(s, StopNext(s));
            ReaderLeft(t) < ReaderLeft(s) && OnlyReader(s, t) && !OfService(StopNext(s)) && !OfDecoder(StopNext(s))
  {
    match s.reader
    case SendChunk =>
      if HasRoom(s) {
        SendingStops(s);
      }
    case _ =>
  }

  lemma StopGetsCloser(s: State)
    requires Inv(s) && s.stop && s.service.Stopping? && !BothIdle(s)
    ensures var t := Apply(s, StopNext(s));
            !OfService(StopNext(s)) && t.stop && t.service == s.service && t.books == s.books && StopLeft(t) < StopLeft(s)
  {
    if !DecoderBusy(s) {
      ReaderGetsToStop(s);
    }
  }

  lemma {:induction false} TasksCanStop(s: State) returns (steps: seq<Step>)
    requires Sound(s) && s.service.Stopping?
    ensures forall step :: step in steps ==> !OfService(step)
    ensures var t := After(s, steps); Sound(t) && BothIdle(t) && t.service.Stopping? && t.books == s.books
    decreases StopLeft(s)
  {
    if BothIdle(s) {
      steps := [];
    } else {
      StopGetsCloser(s);
      StepKeepsSound(s, StopNext(s));
      var rest := TasksCanStop(Apply(s, StopNext(s)));
      steps := [StopNext(s)] + rest;
      AfterOne(s, StopNext(s), rest);
    }
  }

  /** Everything is back where it was at power-up: both tasks idle, nothing queued, both
      permits free. */
  ghost predicate AllStopped(s: State) {
    && Sound(s) && s.service.Stopped? && BothIdle(s) && s.readerCmd.None? && !s.decoderCmd && s.queue == []
    && s.permits == BUF_COUNT
  }

  lemma ResetStops(s: State)
    requires Sound(s) && s.service.Resetting?
    ensures AllStopped(Apply(s, ResetPipeline)) && Apply(s, ResetPipeline).books == s.books
  {
    StepKeepsSound(s, ResetPipeline);
  }

  lemma IdleCanStop(s: State, look: Step)
    requires Sound(s) && BothIdle(s)
    requires (look == StopIdle && Listening(s)) || (look == StopEnd && s.service.Stopping?)
    ensures AllStopped(After(s, [look, ResetPipeline])) && After(s, [look, ResetPipeline]).books == s.books
  {
    StepKeepsSound(s, look);
    ResetStops(Apply(s, look));
    AfterOne(s, look, [ResetPipeline]);
    AfterOne(Apply(s, look), ResetPipeline, []);
    assert [ResetPipeline] + [] == [ResetPipeline] && [look] + [ResetPipeline] == [look, ResetPipeline];
  }

  /** A stop always comes to an end, whatever the tasks are doing. */
  lemma StopCanFinish(s: State) returns (steps: seq<Step>)
    requires Sound(s) && s.service.Stopping?
    ensures AllStopped(After(s, steps)) && After(s, steps).books == s.books
  {
    var first := TasksCanStop(s);
    steps := first + [StopEnd, ResetPipeline];
    IdleCanStop(After(s, first), StopEnd);
    AfterBoth(s, first, [StopEnd, ResetPipeline]);
  }

  /** From any state the pipeline can be stopped; a track that was running is marked. */
  lemma CanBeStopped(s: State) returns (steps: seq<Step>)
    requires Sound(s)
    ensures AllStopped(After(s, steps)) && After(s, steps).books.active == s.books.active
    ensures Listening(s) && !BothIdle(s) ==> s.books.active in After(s, steps).books.stopped
  {
    match s.service
    case Stopping => steps := StopCanFinish(s);
    case Resetting =>
      steps := [ResetPipeline];
      ResetStops(s);
    case Starting(args) =>
      var t := Apply(s, StartFails);
      StepKeepsSound(s, StartFails);
      IdleCanStop(t, StopIdle);
      steps := [StartFails] + [StopIdle, ResetPipeline];
      AfterOne(s, StartFails, [StopIdle, ResetPipeline]);
    case _ =>
      if BothIdle(s) {
        steps := [StopIdle, ResetPipeline];
        IdleCanStop(s, StopIdle);
      } else {
        StepKeepsSound(s, StopBegin);
        var rest := StopCanFinish(Apply(s, StopBegin));
        steps := [StopBegin] + rest;
        AfterOne(s, StopBegin, rest);
      }
  }

  // ----- Starting -----

  /** A track was started where it was asked for, under a new generation: both commands wait,
      and nothing is left of what was played before. */
  ghost predicate JustStarted(s: State, args: StartArgs, generation: nat) {
    && Sound(s) && s.service.Free? && !s.stop && s.books.active == generation && s.track == args.track
    && s.from == args.chunk && s.sent == args.chunk && s.readerCmd == Some(args.chunk) && s.decoderCmd
    && s.queue == [] && s.permits == BUF_COUNT && s.consumed == [] && !s.reachedEnd
  }

  lemma LaunchStarts(s: State)
    requires Sound(s) && s.service.Starting?
    ensures JustStarted(Apply(s, Launch), s.service.args, s.books.active + 1)
    ensures Apply(s, Launch).books.advanced == s.books.advanced
  {
    StepKeepsSound(s, Launch);
  }

  /** After a stop any track can be started at any of its chunks. */
  lemma StoppedCanStart(s: State, args: StartArgs, header: seq<byte>)
    requires AllStopped(s) && args.chunk < |args.track.bounds|
    ensures JustStarted(After(s, [StartTrack(args), ReadHeader(header), Launch]), args, s.books.active + 1)
  {
    var t := Apply(s, StartTrack(args));
    var u := Apply(t, ReadHeader(header));
    StepKeepsSound(s, StartTrack(args));
    assert t == s.(service := Starting(args));
    StepKeepsSound(t, ReadHeader(header));
    LaunchStarts(u);
    ThreeSteps(s, StartTrack(args), ReadHeader(header), Launch);
  }

  lemma ThreeSteps(s: State, a: Step, b: Step, c: Step)
    ensures After(s, [a, b, c]) == Apply(Apply(Apply(s, a), b), c)
  {
    assert [a, b, c][1..] == [b, c] && [b, c][1..] == [c] && [c][1..] == [];
    AfterOne(s, a, [b, c]);
    AfterOne(Apply(s, a), b, [c]);
    AfterOne(Apply(Apply(s, a), b), c, []);
  }

  /** The header read takes the buffer whose turn it is. */
  lemma HeaderTakesABuffer(s: State, bytes: seq<byte>)
    requires Sound(s) && s.service.Starting?
    ensures var t := Apply(s, ReadHeader(bytes));
            && t.bufs[s.nextFill] == bytes && t.bufs[1 - s.nextFill] == s.bufs[1 - s.nextFill]
            && t.nextFill == 1 - s.nextFill && t == s.(bufs := t.bufs, nextFill := t.nextFill)
  {
  }

  /** Skipping: from every state of every undisturbed run, any track can be started at any of
      its chunks. */
  lemma AnyTrackCanBeStarted(states: seq<State>, steps: seq<Step>, k: nat, args: StartArgs) returns (more: seq<Step>)
    requires IsRun(states, steps) && Undisturbed(states, steps) && k < |states| && args.chunk < |args.track.bounds|
    ensures JustStarted(After(states[k], more), args, states[k].books.active + 1)
  {
    RunIsSound(states, steps, k);
    var stop := CanBeStopped(states[k]);
    var start := [StartTrack(args), ReadHeader([]), Launch];
    more := stop + start;
    StoppedCanStart(After(states[k], stop), args, []);
    AfterBoth(states[k], stop, start);
  }

  /** A track that was started plays to its end, all of it from where it was started. */
  lemma StartedTrackCanPlay(s: State, args: StartArgs) returns (more: seq<Step>)
    requires JustStarted(s, args, s.books.active) && Playable(args.track)
    ensures forall step :: step in more ==> !OfService(step)
    ensures AtEof(After(s, more)) && After(s, more).reachedEnd
  {
    more := EndCanBeReached(s);
  }

  // ----- From one track to the next -----

  /** Completions of earlier generations are handled without effect. */
  lemma {:induction false} StaleAreHandled(s: State) returns (steps: seq<Step>)
    requires Sound(s) && Attached(s) && s.service.Free?
    ensures var t := After(s, steps);
            Sound(t) && t == s.(books := s.books.(handled := |s.books.posted|))
    decreases |s.books.posted| - s.books.handled
  {
    if s.books.handled == |s.books.posted| {
      steps := [];
      assert s == s.(books := s.books.(handled := |s.books.posted|));
    } else {
      var t := Apply(s, HandleComplete(None));
      StepKeepsSound(s, HandleComplete(None));
      assert s.books.posted[s.books.handled] in s.books.posted;
      assert t == s.(books := s.books.(handled := s.books.handled + 1));
      var rest := StaleAreHandled(t);
      steps := [HandleComplete(None)] + rest;
      AfterOne(s, HandleComplete(None), rest);
    }
  }

  lemma EofIsTaken(s: State)
    requires Sound(s) && AtEof(s)
    ensures var t := Apply(s, Receive);
            Sound(t) && t.decoder == Completing(s.books.active) && t.reader.Idle? && t.service == s.service &&
            t.books == s.books
  {
    assert Stream(s) == s.queue && Eof in Stream(s);
    StepKeepsSound(s, Receive);
  }

  lemma CompletionIsPosted(s: State)
    requires Sound(s) && AtEof(s)
    ensures var t := Apply(Apply(s, Receive), PostCompletion(true));
            && Sound(t) && BothIdle(t) && t.service == s.service
            && t.books == s.books.(posted := s.books.posted + [s.books.active])
  {
    EofIsTaken(s);
    StepKeepsSound(Apply(s, Receive), PostCompletion(true));
  }

  lemma CompletionStartsNext(s: State, args: StartArgs)
    requires Sound(s) && BothIdle(s) && s.service.Free? && args.chunk < |args.track.bounds|
    requires |s.books.posted| == s.books.handled + 1 && s.books.posted[s.books.handled] == s.books.active
    requires s.books.active !in s.books.stopped
    ensures var t := Apply(Apply(s, HandleComplete(Some(args))), Launch);
            JustStarted(t, args, s.books.active + 1) && t.books.advanced == s.books.advanced + [s.books.active]
  {
    assert s.books.active in s.books.posted;
    StepKeepsSound(s, HandleComplete(Some(args)));
    LaunchStarts(Apply(s, HandleComplete(Some(args))));
  }

  /** A track that has come to its end is followed by the next: its completion moves the
      playlist on, whatever completions of earlier tracks are still waiting. */
  lemma NextTrackFollows(s: State, args: StartArgs) returns (more: seq<Step>)
    requires Sound(s) && AtEof(s) && s.service.Free? && !s.stop && args.chunk < |args.track.bounds|
    ensures JustStarted(After(s, more), args, s.books.active + 1)
    ensures After(s, more).books.advanced == s.books.advanced + [s.books.active]
  {
    var first := StaleAreHandled(s);
    var t := After(s, first);
    CompletionIsPosted(t);
    var u := Apply(Apply(t, Receive), PostCompletion(true));
    CompletionStartsNext(u, args);
    var second := [Receive, PostCompletion(true), HandleComplete(Some(args)), Launch];
    more := first + second;
    AfterBoth(s, first, second);
    FourSteps(t, Receive, PostCompletion(true), HandleComplete(Some(args)), Launch);
  }

  lemma FourSteps(s: State, a: Step, b: Step, c: Step, d: Step)
    ensures After(s, [a, b, c, d]) == Apply(Apply(Apply(Apply(s, a), b), c), d)
  {
    assert [a, b, c, d][1..] == [b, c, d];
    AfterOne(s, a, [b, c, d]);
    ThreeSteps(Apply(s, a), b, c, d);
  }

  // ----- Failures -----

  /** The reader gives the track up: it sends no more of it, and its permit is free again. */
  ghost predicate GaveUp(s: State, t: State) {
    && t.reader.Done? && t.sent == s.sent && t.queue == s.queue && t.reachedEnd == s.reachedEnd && !t.checkedOut
    && t.permits == s.permits + (if s.checkedOut then 1 else 0)
  }

  /** A read that is refused, not served or cannot seek ends the track there. */
  lemma FailedReadGivesUp(s: State)
    requires Inv(s)
    ensures s.reader.RequestRead? ==> GaveUp(s, Apply(s, IssueRead(false)))
    ensures s.reader.AwaitRead? ==> GaveUp(s, Apply(Apply(s, CartridgeRead(NotServed)), TakeResult))
    ensures s.reader.AwaitRead? ==> GaveUp(s, Apply(Apply(s, CartridgeRead(SeekFailed)), TakeResult))
  {
  }

  /** So does a lookup that fails before the end, once the reader has wound up; and a decoder that
      cannot open completes at once. */
  lemma FailedLookupGivesUp(s: State)
    requires Inv(s)
    ensures s.reader.Top? && s.chunk < |s.track.bounds| ==>
              var t := Apply(Apply(s, Lookup(false)), Finish);
              t.reader.SendEof? && GaveUp(s, t.(reader := Done))
    ensures s.decoder.DecoderIdle? && s.decoderCmd ==>
              Apply(s, DecoderDequeue(false)).decoder == Completing(s.books.active)
  {
  }
}
