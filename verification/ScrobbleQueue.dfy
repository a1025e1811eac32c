/** The Last.fm scrobble queue: bounded, dropping the oldest entry when full, with a failed
    item put back at the front. One consumer, any number of senders in between. */
module ScrobbleQueue {
  import opened Bytes
  import opened Esp

  const QUEUE_LENGTH: nat := 512

  datatype Option<+T> = None | Some(value: T)

  /** A scrobble and the number of the call that submitted it. */
  datatype Scrobble = Scrobble(serial: nat, albumChecksum: uint32, trackIndex: uint32)

  /** The queue, the item the consumer holds, and the ledger of what became of the rest. */
  datatype State = State(
    queue: seq<Scrobble>, inFlight: Option<Scrobble>,
    accepted: seq<Scrobble>, consumed: seq<Scrobble>, dropped: seq<Scrobble>)
  {
    /** What is still to be sent, next first. */
    function Line(): seq<Scrobble> {
      (if inFlight.Some? then [inFlight.value] else []) + queue
    }
  }

  const EMPTY := State([], None, [], [], [])

  /** A send, the consumer taking an item, or the consumer finishing with it. `locked` tells
      whether the queue mutex was obtained in time. */
  datatype Op =
    | Send(albumChecksum: uint32, trackIndex: uint32, enabled: bool, locked: bool)
    | Receive(locked: bool)
    | Finish(ok: bool, locked: bool)

  ghost predicate Enabled(s: State, op: Op) {
    match op
    case Send(_, _, _, _) => true
    case Receive(_) => s.inFlight.None?
    case Finish(_, _) => s.inFlight.Some?
  }

  /** A full queue loses its oldest entry. */
  ghost function MakeRoom(s: State): State {
    if |s.queue| < QUEUE_LENGTH then s
    else s.(queue := s.queue[1..], dropped := s.dropped + [s.queue[0]])
  }

  ghost function Enqueue(s: State, item: Scrobble): State {
    s.(queue := s.queue + [item], accepted := s.accepted + [item])
  }

  ghost function PutBack(s: State): State
    requires s.inFlight.Some?
  {
    s.(inFlight := None, queue := [s.inFlight.value] + s.queue)
  }

  ghost function Apply(s: State, op: Op): State
    requires Enabled(s, op)
  {
    match op
    case Send(album, track, enabled, locked) =>
      if !enabled || !locked then s
      else
        Enqueue(MakeRoom(s), Scrobble(|s.accepted|, album, track))
    case Receive(locked) =>
      if !locked || s.queue == [] then s
      else s.(queue := s.queue[1..], inFlight := Some(s.queue[0]))
    case Finish(ok, locked) =>
      if ok then s.(inFlight := None, consumed := s.consumed + [s.inFlight.value])
      else if !locked then s.(inFlight := None, dropped := s.dropped + [s.inFlight.value])
      else PutBack(MakeRoom(s))
  }

  ghost predicate Ordered(items: seq<Scrobble>) {
    forall i, j :: 0 <= i < j < |items| ==> items[i].serial < items[j].serial
  }

  ghost predicate Numbered(s: State) {
    forall i :: 0 <= i < |s.accepted| ==> s.accepted[i].serial == i
  }

  /** Every accepted item is in exactly one place. */
  ghost predicate Accounted(s: State) {
    multiset(s.accepted) == multiset(s.Line()) + multiset(s.consumed) + multiset(s.dropped)
  }

  /** What the consumer holds, as a list. */
  ghost function Held(s: State): seq<Scrobble> {
    if s.inFlight.Some? then [s.inFlight.value] else []
  }

  /** Bounded; unsent items in submission order and after everything consumed; and nothing
      lost or doubled. */
  ghost predicate Inv(s: State) {
    |s.queue| <= QUEUE_LENGTH && Ordered(s.consumed + s.Line()) && Numbered(s) && Accounted(s)
  }

  lemma InLineIsAccepted(s: State, i: nat)
    requires Numbered(s) && Accounted(s) && i < |s.consumed + s.Line()|
    ensures (s.consumed + s.Line())[i].serial < |s.accepted|
  {
    var item := (s.consumed + s.Line())[i];
    assert item in s.consumed || item in s.Line();
    assert item in multiset(s.accepted);
  }

  lemma OrderedRemove(before: seq<Scrobble>, gone: seq<Scrobble>, after: seq<Scrobble>)
    requires Ordered(before + gone + after)
    ensures Ordered(before + after)
  {
    var all, kept := before + gone + after, before + after;
    forall i, j | 0 <= i < j < |kept| ensures kept[i].serial < kept[j].serial {
      var i' := if i < |before| then i else i + |gone|;
      var j' := if j < |before| then j else j + |gone|;
      assert kept[i] == all[i'] && kept[j] == all[j'];
    }
  }

  lemma OrderedAppend(items: seq<Scrobble>, item: Scrobble)
    requires Ordered(items) && forall i :: 0 <= i < |items| ==> items[i].serial < item.serial
    ensures Ordered(items + [item])
  {
  }

  lemma OldestGoneKeepsAccounts(held: seq<Scrobble>, queue: seq<Scrobble>)
    requires queue != []
    ensures multiset(held + queue) == multiset(held + queue[1..]) + multiset{queue[0]}
  {
    assert queue == [queue[0]] + queue[1..];
  }

  lemma OldestGoneKeepsOrder(before: seq<Scrobble>, queue: seq<Scrobble>)
    requires queue != [] && Ordered(before + queue)
    ensures Ordered(before + queue[1..])
  {
    assert before + [queue[0]] + queue[1..] == before + queue;
    OrderedRemove(before, [queue[0]], queue[1..]);
  }

  /** Dropping the oldest queued entry to make room. */
  lemma MakeRoomKeeps(s: State)
    requires Inv(s)
    ensures Inv(MakeRoom(s)) && |MakeRoom(s).queue| < QUEUE_LENGTH
    ensures MakeRoom(s).inFlight == s.inFlight && MakeRoom(s).accepted == s.accepted
  {
    if |s.queue| >= QUEUE_LENGTH {
      var t := MakeRoom(s);
      Assoc(s.consumed, Held(s), s.queue);
      OldestGoneKeepsOrder(s.consumed + Held(s), s.queue);
      Assoc(s.consumed, Held(s), s.queue[1..]);
      assert t.Line() == Held(s) + s.queue[1..] && s.Line() == Held(s) + s.queue;
      OldestGoneKeepsAccounts(Held(s), s.queue);
      assert multiset(t.dropped) == multiset(s.dropped) + multiset{s.queue[0]};
    }
  }

  lemma EnqueueKeeps(s: State, item: Scrobble)
    requires Inv(s) && |s.queue| < QUEUE_LENGTH && item.serial == |s.accepted|
    ensures Inv(Enqueue(s, item))
  {
    var t := Enqueue(s, item);
    var line := s.consumed + s.Line();
    forall i | 0 <= i < |line| ensures line[i].serial < item.serial {
      InLineIsAccepted(s, i);
    }
    OrderedAppend(line, item);
    assert t.Line() == s.Line() + [item];
    assert t.consumed + t.Line() == line + [item];
    assert multiset(t.Line()) == multiset(s.Line()) + multiset{item};
  }

  lemma PutBackKeeps(s: State)
    requires Inv(s) && s.inFlight.Some? && |s.queue| < QUEUE_LENGTH
    ensures Inv(PutBack(s))
  {
    assert PutBack(s).Line() == s.Line();
  }

  lemma ReceiveKeeps(s: State, op: Op)
    requires Inv(s) && op.Receive? && Enabled(s, op)
    ensures Inv(Apply(s, op))
  {
    if op.locked && s.queue != [] {
      assert s.queue == [s.queue[0]] + s.queue[1..];
      assert Apply(s, op).Line() == s.Line();
    }
  }

  /** The item in flight leaves the line, consumed or lost. */
  lemma LeaveKeeps(s: State, ok: bool)
    requires Inv(s) && s.inFlight.Some?
    ensures Inv(Apply(s, Finish(ok, false)))
  {
    var t := Apply(s, Finish(ok, false));
    var item := [s.inFlight.value];
    var line := s.consumed + s.Line();
    assert s.Line() == item + s.queue && t.Line() == s.queue;
    assert line == s.consumed + item + s.queue;
    OrderedRemove(s.consumed, item, s.queue);
    assert multiset(s.Line()) == multiset(item) + multiset(s.queue);
  }

  lemma StepKeeps(s: State, op: Op)
    requires Inv(s) && Enabled(s, op)
    ensures Inv(Apply(s, op))
  {
    match op
    case Send(album, track, enabled, locked) =>
      if enabled && locked {
        MakeRoomKeeps(s);
        EnqueueKeeps(MakeRoom(s), Scrobble(|s.accepted|, album, track));
      }
    case Receive(_) =>
      ReceiveKeeps(s, op);
    case Finish(ok, locked) =>
      if ok || !locked {
        LeaveKeeps(s, ok);
      } else {
        MakeRoomKeeps(s);
        PutBackKeeps(MakeRoom(s));
      }
  }

  // ----- What becomes of each scrobble -----

  /** A failed scrobble that is put back is the next to be sent. */
  lemma RetryComesNext(s: State)
    requires s.inFlight.Some?
    ensures var t := Apply(s, Finish(false, true));
            && t.inFlight.None? && t.queue != [] && t.queue[0] == s.inFlight.value
            && t.consumed == s.consumed && t.accepted == s.accepted
            && Apply(t, Receive(true)).inFlight == s.inFlight
            && (|s.queue| < QUEUE_LENGTH ==> t.Line() == s.Line() && t.dropped == s.dropped)
  {
  }

  /** What this operation drops: an item whose turn cannot be given back for want of the lock,
      or the oldest queued one when the queue is full. */
  ghost function Drops(s: State, op: Op): seq<Scrobble>
    requires Enabled(s, op)
  {
    match op
    case Send(_, _, enabled, locked) => if enabled && locked && |s.queue| >= QUEUE_LENGTH then [s.queue[0]] else []
    case Receive(_) => []
    case Finish(ok, locked) =>
      if ok then [] else if !locked then [s.inFlight.value]
      else if |s.queue| >= QUEUE_LENGTH then [s.queue[0]] else []
  }

  /** Every operation's entries in the ledger: accepted is what an enabled sender submits with the
      lock, consumed is what was sent, and nothing is dropped but for the reasons above. */
  lemma LedgerMoves(s: State, op: Op)
    requires Enabled(s, op)
    ensures var t := Apply(s, op);
            && t.accepted == s.accepted +
               (if op.Send? && op.enabled && op.locked
                then [Scrobble(|s.accepted|, op.albumChecksum, op.trackIndex)] else [])
            && t.consumed == s.consumed + (if op.Finish? && op.ok then [s.inFlight.value] else [])
            && t.dropped == s.dropped + Drops(s, op)
            && (op.Receive? && op.locked && s.queue != [] ==> t.inFlight == Some(s.queue[0]))
            && (op.Finish? ==> t.inFlight.None?) && (op.Send? ==> t.inFlight == s.inFlight)
  {
  }

  /** On a run that meets no full queue and always gets the lock nothing is ever dropped. */
  lemma {:induction false} NothingDroppedWithRoom(states: seq<State>, ops: seq<Op>, k: nat)
    requires IsRun(states, ops) && k < |states|
    requires forall i :: 0 <= i < k ==> |states[i].queue| < QUEUE_LENGTH && ops[i].locked
    ensures states[k].dropped == []
    ensures multiset(states[k].accepted) == multiset(states[k].Line()) + multiset(states[k].consumed)
  {
    RunKeepsInv(states, ops, k);
    if k > 0 {
      NothingDroppedWithRoom(states, ops, k - 1);
      LedgerMoves(states[k - 1], ops[k - 1]);
      assert states[k - 1 + 1] == Apply(states[k - 1], ops[k - 1]);
    }
  }

  // ----- Runs -----

  /** States a run of operations passes through. */
  ghost predicate IsRun(states: seq<State>, ops: seq<Op>) {
    && |states| == |ops| + 1 && states[0] == EMPTY
    && forall i :: 0 <= i < |ops| ==> Enabled(states[i], ops[i]) && states[i + 1] == Apply(states[i], ops[i])
  }

  lemma {:induction false} RunKeepsInv(states: seq<State>, ops: seq<Op>, k: nat)
    requires IsRun(states, ops) && k < |states|
    ensures Inv(states[k])
  {
    if k > 0 {
      RunKeepsInv(states, ops, k - 1);
      var s, op := states[k - 1], ops[k - 1];
      assert states[k - 1 + 1] == Apply(s, op);
      StepKeeps(s, op);
    }
  }

  lemma MultiplicityOfUnique(items: seq<Scrobble>, i: nat)
    requires i < |items| && forall k :: 0 <= k < |items| ==> items[k].serial == k
    ensures multiset(items)[items[i]] == 1
  {
    assert items == items[..i] + [items[i]] + items[i + 1..];
    assert multiset(items) == multiset(items[..i]) + multiset{items[i]} + multiset(items[i + 1..]);
    assert items[i] !in items[..i] && items[i] !in items[i + 1..];
  }

  /** At every point of every run: at most 512 queued; the item in flight, then the queue,
      in submission order, and everything already consumed before them in that order too;
      each accepted scrobble in exactly one of line, consumed and dropped. */
  lemma ScrobblesInOrderExactlyOnce(states: seq<State>, ops: seq<Op>, k: nat, i: nat)
    requires IsRun(states, ops) && k < |states| && i < |states[k].accepted|
    ensures var s := states[k];
            |s.queue| <= QUEUE_LENGTH && Ordered(s.Line()) && Ordered(s.consumed)
    ensures var s := states[k];
            var item := s.accepted[i];
            multiset(s.Line())[item] + multiset(s.consumed)[item] + multiset(s.dropped)[item] == 1
  {
    RunKeepsInv(states, ops, k);
    var s := states[k];
    MultiplicityOfUnique(s.accepted, i);
    OrderedParts(s.consumed, s.Line());
    PlacesAddUp(s, s.accepted[i]);
  }

  lemma PlacesAddUp(s: State, item: Scrobble)
    requires Accounted(s)
    ensures multiset(s.accepted)[item] ==
            multiset(s.Line())[item] + multiset(s.consumed)[item] + multiset(s.dropped)[item]
  {
  }

  lemma OrderedParts(left: seq<Scrobble>, right: seq<Scrobble>)
    requires Ordered(left + right)
    ensures Ordered(left) && Ordered(right)
  {
    var all := left + right;
    forall i, j | 0 <= i < j < |left| ensures left[i].serial < left[j].serial {
      assert all[i] == left[i] && all[j] == left[j];
    }
    forall i, j | 0 <= i < j < |right| ensures right[i].serial < right[j].serial {
      assert all[|left| + i] == right[i] && all[|left| + j] == right[j];
    }
  }

  // ----- The firmware's functions -----

  class Sender {
    var queue: seq<Scrobble>
    var inFlight: Option<Scrobble>
    var enabled: bool
    ghost var accepted: seq<Scrobble>
    ghost var consumed: seq<Scrobble>
    ghost var dropped: seq<Scrobble>
    var submitted: nat

    ghost function Now(): State
      reads this
    {
      State(queue, inFlight, accepted, consumed, dropped)
    }

    ghost predicate Valid()
      reads this
    {
      |queue| <= QUEUE_LENGTH && submitted == |accepted|
    }

    constructor ()
      ensures Valid() && Now() == EMPTY && enabled
    {
      queue, inFlight, enabled, submitted := [], None, true, 0;
      accepted, consumed, dropped := [], [], [];
    }

    method SendScrobble(albumChecksum: uint32, trackIndex: uint32, locked: bool) returns (err: Err)
      requires Valid()
      modifies this
      ensures Valid() && enabled == old(enabled)
      ensures Now() == Apply(old(Now()), Send(albumChecksum, trackIndex, enabled, locked))
      ensures err == if old(enabled) && !locked then TIMEOUT else OK
    {
      if !enabled {
        return OK;
      }
      if !locked {
        return TIMEOUT;
      }
      var item := Scrobble(submitted, albumChecksum, trackIndex);
      if |queue| >= QUEUE_LENGTH {
        dropped := dropped + [queue[0]];
        queue := queue[1..];
      }
      queue := queue + [item];
      submitted := submitted + 1;
      accepted := accepted + [item];
      return OK;
    }

    method ReceiveScrobble(locked: bool) returns (err: Err)
      requires Valid() && inFlight.None?
      modifies this
      ensures Valid() && enabled == old(enabled)
      ensures Now() == Apply(old(Now()), Receive(locked))
      ensures err == if !locked then TIMEOUT else if old(queue) == [] then NOT_FOUND else OK
      ensures err == OK <==> inFlight.Some?
    {
      if !locked {
        return TIMEOUT;
      }
      if queue == [] {
        return NOT_FOUND;
      }
      inFlight := Some(queue[0]);
      queue := queue[1..];
      return OK;
    }

    method RequeueScrobble(locked: bool)
      requires Valid() && inFlight.Some?
      modifies this
      ensures Valid() && enabled == old(enabled)
      ensures Now() == Apply(old(Now()), Finish(false, locked))
    {
      var payload := inFlight.value;
      inFlight := None;
      if !locked {
        dropped := dropped + [payload];
        return;
      }
      if |queue| >= QUEUE_LENGTH {
        dropped := dropped + [queue[0]];
        queue := queue[1..];
      }
      queue := [payload] + queue;
    }

    /** One turn of the consumer: an item that was processed is gone, a failed one goes
        back to the front. A disabled sender consumes without sending. */
    method ProcessScrobble(sent: bool, locked: bool)
      requires Valid() && inFlight.Some?
      modifies this
      ensures Valid() && enabled == old(enabled)
      ensures Now() == Apply(old(Now()), Finish(sent || !enabled, locked))
    {
      if enabled && !sent {
        RequeueScrobble(locked);
        return;
      }
      consumed := consumed + [inFlight.value];
      inFlight := None;
    }
  }
}
