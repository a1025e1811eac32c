/** The handshake between tasks that ask for a commit and the task that carries it out:
    two flags and a result, each touched inside one critical section at a time. */
module CommitHandshake {
  import opened Esp

  datatype Option<+T> = None | Some(value: T)

  /** A flush, the moment it began, and its outcome once it has ended. */
  datatype Flush = Flush(begun: nat, outcome: Option<Err>)

  datatype Requester =
    | Idle
    | Waiting(since: nat)
    | Returned(since: nat, result: Err)

  /** `flushes` are all flushes begun so far, `running` those that have not ended, and
      `clock` counts steps. */
  datatype State = State(
    requested: bool, inProgress: bool, result: Err,
    requesters: seq<Requester>,
    flushes: seq<Flush>, running: set<nat>, clock: nat)

  datatype Step =
    /** A task asks for a commit; refused when one is asked for or under way. */
    | Request(who: nat)
    /** A waiting task looks again. */
    | Poll(who: nat)
    /** The process task takes up a request. */
    | BeginRequested
    /** The process task commits of its own accord. */
    | BeginDirect
    /** A flush ends, with any outcome. */
    | End(flush: nat, err: Err)

  ghost function Begin(s: State): State {
    s.(inProgress := true, flushes := s.flushes + [Flush(s.clock, None)], running := s.running + {|s.flushes|})
  }

  ghost function Settle(s: State, step: Step): State {
    match step
    case Request(who) =>
      if who >= |s.requesters| || s.requesters[who].Waiting? || s.requested || s.inProgress then s
      else s.(requested := true, result := INVALID_STATE, requesters := s.requesters[who := Waiting(s.clock)])
    case Poll(who) =>
      if who < |s.requesters| && s.requesters[who].Waiting? && !s.requested && !s.inProgress
      then s.(requesters := s.requesters[who := Returned(s.requesters[who].since, s.result)])
      else s
    case BeginRequested => if s.requested && !s.inProgress then Begin(s).(requested := false) else s
    case BeginDirect => if s.inProgress then s else Begin(s)
    case End(flush, err) =>
      if flush in s.running && flush < |s.flushes|
      then s.(result := err, inProgress := false, running := s.running - {flush},
              flushes := s.flushes[flush := s.flushes[flush].(outcome := Some(err))])
      else s
  }

  ghost function Apply(s: State, step: Step): State {
    Settle(s, step).(clock := s.clock + 1)
  }

  ghost function Last(s: State): Flush
    requires s.flushes != []
  {
    s.flushes[|s.flushes| - 1]
  }

  /** A flush that began after `since` has ended with this result. */
  ghost predicate Answers(flush: Flush, since: nat, result: Err) {
    flush.begun > since && flush.outcome == Some(result)
  }

  ghost predicate Inv(s: State) {
    // The flag says whether a flush is running, and then it is the one begun last.
    && s.running == (if s.inProgress then {|s.flushes| - 1} else {})
    && (s.inProgress ==> s.flushes != [])
    && (forall i :: 0 <= i < |s.flushes| ==> s.flushes[i].begun < s.clock)
    && (forall i :: 0 <= i < |s.flushes| ==> (s.flushes[i].outcome.None? <==> i in s.running))
    // With nothing asked for or under way, the result is the last flush's.
    && (!s.requested && !s.inProgress && s.flushes != [] ==> Last(s).outcome == Some(s.result))
    // A request that was taken up was answered by a flush begun after it.
    && (forall i :: 0 <= i < |s.requesters| && s.requesters[i].Waiting? ==>
          s.requesters[i].since < s.clock &&
          (!s.requested ==> s.flushes != [] && Last(s).begun > s.requesters[i].since))
    && (forall i :: 0 <= i < |s.requesters| && s.requesters[i].Returned? ==>
          exists f :: 0 <= f < |s.flushes| && Answers(s.flushes[f], s.requesters[i].since, s.requesters[i].result))
  }

  ghost predicate Start(s: State) {
    && !s.requested && !s.inProgress && s.flushes == [] && s.running == {} && s.clock == 0
    && forall i :: 0 <= i < |s.requesters| ==> s.requesters[i] == Idle
  }

  /** Answers given stay true as flushes begin and end. */
  lemma AnswersStay(before: seq<Flush>, after: seq<Flush>, since: nat, result: Err)
    requires exists f :: 0 <= f < |before| && Answers(before[f], since, result)
    requires |before| <= |after|
    requires forall f :: 0 <= f < |before| && before[f].outcome.Some? ==> after[f] == before[f]
    ensures exists f :: 0 <= f < |after| && Answers(after[f], since, result)
  {
    var f :| 0 <= f < |before| && Answers(before[f], since, result);
    assert Answers(after[f], since, result);
  }

  lemma PollKeepsInv(s: State, who: nat)
    requires Inv(s)
    ensures Inv(Apply(s, Poll(who)))
  {
    if who < |s.requesters| && s.requesters[who].Waiting? && !s.requested && !s.inProgress {
      assert Answers(Last(s), s.requesters[who].since, s.result);
    }
  }

  lemma BeginKeepsInv(s: State, step: Step)
    requires Inv(s) && (step.BeginRequested? || step.BeginDirect?)
    ensures Inv(Apply(s, step))
  {
    var t := Apply(s, step);
    forall i | 0 <= i < |t.requesters| && t.requesters[i].Returned?
      ensures exists f :: 0 <= f < |t.flushes| && Answers(t.flushes[f], t.requesters[i].since, t.requesters[i].result)
    {
      AnswersStay(s.flushes, t.flushes, t.requesters[i].since, t.requesters[i].result);
    }
  }

  lemma EndKeepsInv(s: State, flush: nat, err: Err)
    requires Inv(s)
    ensures Inv(Apply(s, End(flush, err)))
  {
    var t := Apply(s, End(flush, err));
    forall i | 0 <= i < |t.requesters| && t.requesters[i].Returned?
      ensures exists f :: 0 <= f < |t.flushes| && Answers(t.flushes[f], t.requesters[i].since, t.requesters[i].result)
    {
      AnswersStay(s.flushes, t.flushes, t.requesters[i].since, t.requesters[i].result);
    }
  }

  lemma StepKeepsInv(s: State, step: Step)
    requires Inv(s)
    ensures Inv(Apply(s, step))
  {
    match step
    case Request(who) =>
    case Poll(who) => PollKeepsInv(s, who);
    case BeginRequested => BeginKeepsInv(s, step);
    case BeginDirect => BeginKeepsInv(s, step);
    case End(flush, err) => EndKeepsInv(s, flush, err);
  }

  ghost predicate IsRun(states: seq<State>, steps: seq<Step>) {
    && |states| == |steps| + 1 && Start(states[0])
    && forall k :: 0 <= k < |steps| ==> states[k + 1] == Apply(states[k], steps[k])
  }

  lemma {:induction false} RunKeepsInv(states: seq<State>, steps: seq<Step>, k: nat)
    requires IsRun(states, steps) && k < |states|
    ensures Inv(states[k])
  {
    if k > 0 {
      RunKeepsInv(states, steps, k - 1);
      StepKeepsInv(states[k - 1], steps[k - 1]);
      assert states[k - 1 + 1] == Apply(states[k - 1], steps[k - 1]);
    }
  }

  /** Under every interleaving no two flushes overlap: at most one is running, and every
      flush but the one begun last has ended. */
  lemma FlushesNeverOverlap(states: seq<State>, steps: seq<Step>, k: nat)
    requires IsRun(states, steps) && k < |states|
    ensures |states[k].running| <= 1
    ensures forall f :: 0 <= f < |states[k].flushes| - 1 ==> states[k].flushes[f].outcome.Some?
  {
    RunKeepsInv(states, steps, k);
  }

  /** What a requester returns with is the outcome of a flush that began after its request. */
  lemma ResultsAreFresh(states: seq<State>, steps: seq<Step>, k: nat, who: nat)
    requires IsRun(states, steps) && k < |states|
    requires who < |states[k].requesters| && states[k].requesters[who].Returned?
    ensures exists f :: 0 <= f < |states[k].flushes| &&
                        Answers(states[k].flushes[f], states[k].requesters[who].since, states[k].requesters[who].result)
  {
    RunKeepsInv(states, steps, k);
  }

  /** The steps that bring a waiting requester its answer: whatever runs ends, and a request
      not yet taken up is taken up and ends. */
  ghost function Finish(s: State, who: nat, err: Err): State {
    var ended := if s.inProgress then Apply(s, End(if |s.flushes| > 0 then |s.flushes| - 1 else 0, err)) else s;
    var served := if ended.requested then Apply(Apply(ended, BeginRequested), End(|ended.flushes|, err)) else ended;
    Apply(served, Poll(who))
  }

  /** No request is lost: a waiting requester can always still get its answer. */
  lemma WaiterCanFinish(s: State, who: nat, err: Err)
    requires Inv(s) && who < |s.requesters| && s.requesters[who].Waiting?
    ensures Finish(s, who, err).requesters[who].Returned?
  {
    var ended := if s.inProgress then Apply(s, End(if |s.flushes| > 0 then |s.flushes| - 1 else 0, err)) else s;
    assert Inv(ended) by {
      if s.inProgress {
        EndKeepsInv(s, |s.flushes| - 1, err);
      }
    }
    assert !ended.inProgress && ended.requesters == s.requesters;
  }

  /** A request is accepted exactly when nothing is pending or under way, and then it is this
      requester alone that waits. */
  lemma RequestIsAcceptedIff(s: State, who: nat)
    requires who < |s.requesters| && !s.requesters[who].Waiting?
    ensures var t := Apply(s, Request(who));
            if s.requested || s.inProgress then t == s.(clock := s.clock + 1)
            else t.requested && !t.inProgress && t.requesters == s.requesters[who := Waiting(s.clock)] &&
                 t.flushes == s.flushes
  {
  }

  /** Whatever is running or asked for ends, with any outcome. */
  ghost function Quieten(s: State, err: Err): State {
    var ended := if s.inProgress then Apply(s, End(if |s.flushes| > 0 then |s.flushes| - 1 else 0, err)) else s;
    if ended.requested then Apply(Apply(ended, BeginRequested), End(|ended.flushes|, err)) else ended
  }

  lemma QuietensDown(s: State, err: Err)
    requires Inv(s)
    ensures var t := Quieten(s, err);
            Inv(t) && !t.requested && !t.inProgress && t.requesters == s.requesters && t.clock >= s.clock
  {
    var ended := if s.inProgress then Apply(s, End(if |s.flushes| > 0 then |s.flushes| - 1 else 0, err)) else s;
    if s.inProgress {
      EndKeepsInv(s, |s.flushes| - 1, err);
    }
    if ended.requested {
      BeginKeepsInv(ended, BeginRequested);
      EndKeepsInv(Apply(ended, BeginRequested), |ended.flushes|, err);
    }
  }

  /** Any task can have a commit: once things are quiet its request is accepted, carried out by a
      flush of its own, and answered with that flush's outcome. */
  lemma AnyoneCanCommit(s: State, who: nat, before: Err, err: Err)
    requires Inv(s) && who < |s.requesters| && !s.requesters[who].Waiting?
    ensures var quiet := Quieten(s, before);
            var asked := Apply(quiet, Request(who));
            var begun := Apply(asked, BeginRequested);
            var ended := Apply(begun, End(|quiet.flushes|, err));
            && asked.requesters[who] == Waiting(quiet.clock)
            && |begun.flushes| == |quiet.flushes| + 1 && begun.inProgress && !begun.requested
            && Answers(Last(ended), quiet.clock, err)
            && Apply(ended, Poll(who)).requesters[who] == Returned(quiet.clock, err)
  {
    QuietensDown(s, before);
  }

  /** A commit of the process task's own accord begins exactly when none runs, and its outcome is
      the result. */
  lemma DirectCommitIff(s: State, err: Err)
    requires Inv(s)
    ensures var begun := Apply(s, BeginDirect);
            if s.inProgress then begun == s.(clock := s.clock + 1)
            else begun.inProgress && |begun.flushes| == |s.flushes| + 1 && begun.requested == s.requested &&
                 Apply(begun, End(|s.flushes|, err)).result == err
  {
  }

  // ----- The flags in memory -----

  /** Each method is one critical section. */
  class CommitFlags {
    var requested: bool
    var inProgress: bool
    var result: Err

    ghost predicate Agrees(s: State)
      reads this
    {
      requested == s.requested && inProgress == s.inProgress && result == s.result
    }

    method TryRequest(ghost s: State, ghost who: nat) returns (accepted: bool)
      requires Agrees(s) && who < |s.requesters| && !s.requesters[who].Waiting?
      modifies this
      ensures Agrees(Apply(s, Request(who)))
      ensures accepted <==> Apply(s, Request(who)).requesters[who] == Waiting(s.clock)
      ensures accepted <==> !old(requested) && !old(inProgress)
      ensures accepted ==> requested && !inProgress && result == INVALID_STATE
    {
      if requested || inProgress {
        return false;
      }
      requested := true;
      result := INVALID_STATE;
      return true;
    }

    method PollResult(ghost s: State, ghost who: nat) returns (finished: bool, err: Err)
      requires Agrees(s) && who < |s.requesters| && s.requesters[who].Waiting?
      ensures Agrees(Apply(s, Poll(who)))
      ensures finished <==> Apply(s, Poll(who)).requesters[who].Returned?
      ensures finished ==> Apply(s, Poll(who)).requesters[who].result == err
      ensures (finished <==> !requested && !inProgress) && err == result
    {
      finished := !requested && !inProgress;
      err := result;
    }

    method BeginRequestedCommit(ghost s: State) returns (shouldCommit: bool)
      requires Agrees(s)
      modifies this
      ensures Agrees(Apply(s, BeginRequested))
      ensures shouldCommit <==> |Apply(s, BeginRequested).flushes| == |s.flushes| + 1
      ensures shouldCommit <==> old(requested) && !old(inProgress)
      ensures shouldCommit ==> !requested && inProgress
    {
      shouldCommit := false;
      if requested && !inProgress {
        requested := false;
        inProgress := true;
        shouldCommit := true;
      }
    }

    method BeginDirectCommit(ghost s: State) returns (err: Err)
      requires Agrees(s)
      modifies this
      ensures Agrees(Apply(s, BeginDirect))
      ensures err == OK <==> |Apply(s, BeginDirect).flushes| == |s.flushes| + 1
      ensures err == (if old(inProgress) then INVALID_STATE else OK) && inProgress && requested == old(requested)
    {
      if inProgress {
        return INVALID_STATE;
      }
      inProgress := true;
      return OK;
    }

    method FinishCommit(ghost s: State, ghost flush: nat, err: Err)
      requires Agrees(s) && flush in s.running && flush < |s.flushes|
      modifies this
      ensures Agrees(Apply(s, End(flush, err)))
      ensures result == err && !inProgress && requested == old(requested)
    {
      result := err;
      inProgress := false;
    }
  }
}
