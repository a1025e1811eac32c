/** The play history over whole runs of syncs, plays, clears, rebuilds and restarts. */
module HistoryRuns {
  import opened Bytes
  import opened Esp
  import opened HistorySlots
  import opened HistoryLaws
  import opened HistoryImage

  datatype Op =
    | SyncOp(cart: Cartridge)
    | PlayOp(event: PlayEvent, cart: Cartridge)
    | ClearOp
    | RebuildOp(cart: Cartridge)
    | RestartOp

  /** What each operation leaves; a restart loads what a commit just before it saved. */
  ghost function Apply(c: Cache, op: Op): Cache
    requires Inv(c)
  {
    match op
    case SyncOp(cart) => Sync(c, cart).1
    case PlayOp(event, cart) => Play(c, event, cart).1
    case ClearOp => Reset(true)
    case RebuildOp(cart) => Rebuild(cart).1
    case RestartOp => Load(Image(c)).1
  }

  // ----- Every operation keeps the invariant -----

  lemma ResetIsEmpty(dirty: bool)
    ensures Inv(Reset(dirty)) && Reset(dirty).nextSequence == 1
    ensures forall cs, i: nat :: RecordOf(Reset(dirty).tracks, cs, i) == None
  {
    forall cs, i: nat ensures RecordOf(Reset(dirty).tracks, cs, i) == None {
      TrackAbsent(Reset(dirty).tracks, cs, i);
    }
  }

  lemma SyncKeeps(c: Cache, cart: Cartridge)
    requires Inv(c) && c.nextSequence < UINT32_MAX
    ensures Inv(Sync(c, cart).1)
    ensures Sync(c, cart).0 == (if !cart.mounted then INVALID_STATE else if cart.metadata.None? then NOT_FOUND else OK)
    ensures Sync(c, cart).0 == OK ==> Synced(c, Sync(c, cart).1, cart.metadata.value)
    ensures Sync(c, cart).0 != OK ==> Sync(c, cart).1 == c
  {
    if cart.metadata.Some? {
      SyncSucceeds(c, cart.metadata.value);
    }
  }

  /** Plays recorded for a track; none when it has no record. */
  ghost function PlaysOf(c: Cache, checksum: uint32, index: nat): (plays: nat)
    ensures plays < 0x1_0000_0000
    ensures RecordOf(c.tracks, checksum, index).None? ==> plays == 0
  {
    var record := RecordOf(c.tracks, checksum, index);
    if record.None? then 0 else record.value.playCount
  }

  lemma SyncKeepsPlays(c: Cache, cart: Cartridge, cs: uint32, i: nat)
    requires Inv(c) && c.nextSequence < UINT32_MAX
    ensures RecordOf(Sync(c, cart).1.tracks, cs, i).Some? ==> PlaysOf(Sync(c, cart).1, cs, i) == PlaysOf(c, cs, i)
    ensures RecordOf(c.tracks, cs, i).Some? && Sync(c, cart).0 == OK && cs == cart.metadata.value.checksum ==>
              RecordOf(Sync(c, cart).1.tracks, cs, i).Some?
  {
    SyncKeeps(c, cart);
    var (err, d) := Sync(c, cart);
    if err == OK {
      var m := cart.metadata.value;
      assert RecordsKept(c, d, m, cs, i);
      if cs == m.checksum && i < |m.tracks| {
        assert SyncedFrom(RecordOf(c.tracks, cs, i), RecordOf(d.tracks, cs, i), m.tracks[i],
                          AlbumOf(d.albums, m.checksum).value.lastSeen);
      }
    }
  }

  lemma CountPlayWorks(c: Cache, event: PlayEvent, slot: nat)
    requires Inv(c) && FindTrack(c.tracks, event.checksum, event.index) == Some(slot)
    ensures c.tracks[slot].Some? && Inv(CountPlay(c, event, slot)) && CountPlay(c, event, slot).dirty
    ensures var d := CountPlay(c, event, slot);
            && (forall cs, i: nat :: cs != event.checksum || i != event.index ==>
                  RecordOf(d.tracks, cs, i) == RecordOf(c.tracks, cs, i))
            && RecordOf(d.tracks, event.checksum, event.index).Some?
            && PlaysOf(d, event.checksum, event.index) == (PlaysOf(c, event.checksum, event.index) + 1) % 0x1_0000_0000
  {
    assert IsTrack(event.checksum, event.index)(c.tracks[slot]);
    var d := CountPlay(c, event, slot);
    var track := d.tracks[slot].value;
    PutTrack(c.tracks, slot, track);
    forall cs, i: nat | cs != event.checksum || i != event.index
      ensures RecordOf(d.tracks, cs, i) == RecordOf(c.tracks, cs, i)
    {
      PutTrackKeepsOthers(c.tracks, slot, track, cs, i);
    }
    assert HasAlbum(c.albums, event.checksum);
    var at := FindAlbum(c.albums, event.checksum).value;
    assert IsAlbum(event.checksum)(c.albums[at]);
    var counted := c.(tracks := d.tracks);
    forall i | 0 <= i < |counted.tracks| && counted.tracks[i].Some?
      ensures HasAlbum(counted.albums, counted.tracks[i].value.checksum)
    {
      assert i != slot ==> counted.tracks[i] == c.tracks[i];
    }
    PutAlbumKeepsPresent(counted, at, d.albums[at].value);
  }

  /** A play is counted exactly when its track is recorded, or the mounted cartridge has it. */
  ghost predicate Countable(c: Cache, event: PlayEvent, cart: Cartridge) {
    || RecordOf(c.tracks, event.checksum, event.index).Some?
    || (cart.mounted && cart.metadata.Some? && cart.metadata.value.checksum == event.checksum &&
        event.index < |cart.metadata.value.tracks|)
  }

  /** The cartridge's own record for the track of an event, once it is synced. */
  lemma SyncForPlayWorks(c: Cache, event: PlayEvent, cart: Cartridge)
    requires Inv(c) && c.nextSequence < UINT32_MAX
    ensures var (err, d) := SyncForPlay(c, event, cart);
            && Inv(d) && (err != OK ==> d == c)
            && (err == OK && RecordOf(d.tracks, event.checksum, event.index).Some? <==> Countable(c, event, cart))
  {
    SyncKeeps(c, cart);
    var (err, d) := SyncForPlay(c, event, cart);
    if RecordOf(c.tracks, event.checksum, event.index).None? && cart.mounted && cart.metadata.Some? &&
       cart.metadata.value.checksum == event.checksum
    {
      var m := cart.metadata.value;
      assert Synced(c, d, m) && RecordsKept(c, d, m, event.checksum, event.index);
      if event.index < |m.tracks| {
        assert SyncedFrom(RecordOf(c.tracks, m.checksum, event.index), RecordOf(d.tracks, m.checksum, event.index),
                          m.tracks[event.index], AlbumOf(d.albums, m.checksum).value.lastSeen);
      }
    }
  }

  lemma PlayWorks(c: Cache, event: PlayEvent, cart: Cartridge)
    requires Inv(c) && c.nextSequence < UINT32_MAX
    ensures var (err, d) := Play(c, event, cart);
            && Inv(d) && (err == OK <==> Countable(c, event, cart))
            && (err == OK ==> d.dirty && RecordOf(d.tracks, event.checksum, event.index).Some?)
  {
    SyncForPlayWorks(c, event, cart);
    var (err, synced) := SyncForPlay(c, event, cart);
    if err == OK && RecordOf(synced.tracks, event.checksum, event.index).Some? {
      CountPlayWorks(synced, event, FindTrack(synced.tracks, event.checksum, event.index).value);
    }
  }

  lemma StepKeepsInv(c: Cache, op: Op)
    requires Inv(c) && c.nextSequence < UINT32_MAX
    ensures Inv(Apply(c, op))
  {
    match op
    case SyncOp(cart) => SyncKeeps(c, cart);
    case PlayOp(event, cart) => PlayWorks(c, event, cart);
    case ClearOp => ResetIsEmpty(true);
    case RebuildOp(cart) =>
      ResetIsEmpty(true);
      SyncKeeps(Reset(true), cart);
    case RestartOp =>
      SaveThenLoad(c);
      RepackedKeepsRecords(c);
  }

  // ----- Play counts -----

  /** This operation counts one play of the track. */
  ghost predicate Counts(c: Cache, op: Op, checksum: uint32, index: nat) {
    op.PlayOp? && op.event.checksum == checksum && op.event.index == index && Countable(c, op.event, op.cart)
  }

  ghost predicate Wipes(op: Op) {
    op.ClearOp? || op.RebuildOp?
  }

  /** One more play, as the counter counts. */
  ghost function Plus(plays: nat, more: bool): nat {
    (plays + if more then 1 else 0) % 0x1_0000_0000
  }

  lemma SyncForPlayKeepsPlays(c: Cache, event: PlayEvent, cart: Cartridge, cs: uint32, i: nat)
    requires Inv(c) && c.nextSequence < UINT32_MAX
    ensures var d := SyncForPlay(c, event, cart).1;
            RecordOf(d.tracks, cs, i).Some? ==> PlaysOf(d, cs, i) == PlaysOf(c, cs, i)
  {
    SyncKeepsPlays(c, cart, cs, i);
  }

  lemma PlayCountsOne(c: Cache, event: PlayEvent, cart: Cartridge, cs: uint32, i: nat)
    requires Inv(c) && c.nextSequence < UINT32_MAX
    requires RecordOf(Play(c, event, cart).1.tracks, cs, i).Some?
    ensures PlaysOf(Play(c, event, cart).1, cs, i) ==
            Plus(PlaysOf(c, cs, i), Counts(c, PlayOp(event, cart), cs, i))
  {
    SyncForPlayWorks(c, event, cart);
    SyncForPlayKeepsPlays(c, event, cart, cs, i);
    var (err, synced) := SyncForPlay(c, event, cart);
    if err == OK && RecordOf(synced.tracks, event.checksum, event.index).Some? {
      CountedOne(synced, event, FindTrack(synced.tracks, event.checksum, event.index).value, cs, i);
    } else {
      PlusNone(PlaysOf(c, cs, i));
    }
  }

  lemma CountedOne(c: Cache, event: PlayEvent, slot: nat, cs: uint32, i: nat)
    requires Inv(c) && FindTrack(c.tracks, event.checksum, event.index) == Some(slot)
    ensures c.tracks[slot].Some?
    ensures var d := CountPlay(c, event, slot);
            && (RecordOf(d.tracks, cs, i).Some? <==> RecordOf(c.tracks, cs, i).Some?)
            && PlaysOf(d, cs, i) == Plus(PlaysOf(c, cs, i), cs == event.checksum && i == event.index)
  {
    CountPlayWorks(c, event, slot);
    if cs != event.checksum || i != event.index {
      PlusNone(PlaysOf(c, cs, i));
    }
  }

  /** A record that is there after an operation has the plays it had before, none if it was
      not there or everything was wiped, and one more if the operation was its play. */
  lemma StepCounts(c: Cache, op: Op, cs: uint32, i: nat)
    requires Inv(c) && c.nextSequence < UINT32_MAX
    requires RecordOf(Apply(c, op).tracks, cs, i).Some?
    ensures PlaysOf(Apply(c, op), cs, i) ==
            Plus(if Wipes(op) then 0 else PlaysOf(c, cs, i), Counts(c, op, cs, i))
  {
    if op.PlayOp? {
      PlayStepCounts(c, op, cs, i);
    } else {
      OtherStepCounts(c, op, cs, i);
    }
  }

  lemma PlayStepCounts(c: Cache, op: Op, cs: uint32, i: nat)
    requires Inv(c) && c.nextSequence < UINT32_MAX && op.PlayOp?
    requires RecordOf(Apply(c, op).tracks, cs, i).Some?
    ensures PlaysOf(Apply(c, op), cs, i) ==
            Plus(if Wipes(op) then 0 else PlaysOf(c, cs, i), Counts(c, op, cs, i))
  {
    PlayCountsOne(c, op.event, op.cart, cs, i);
    assert Apply(c, op) == Play(c, op.event, op.cart).1;
    assert op == PlayOp(op.event, op.cart);
  }

  lemma PlusNone(plays: nat)
    requires plays < 0x1_0000_0000
    ensures Plus(plays, false) == plays
  {
  }

  lemma OtherStepCounts(c: Cache, op: Op, cs: uint32, i: nat)
    requires Inv(c) && c.nextSequence < UINT32_MAX && !op.PlayOp?
    requires RecordOf(Apply(c, op).tracks, cs, i).Some?
    ensures PlaysOf(Apply(c, op), cs, i) ==
            Plus(if Wipes(op) then 0 else PlaysOf(c, cs, i), Counts(c, op, cs, i))
  {
    OthersKeepPlays(c, op, cs, i);
    PlusNone(if Wipes(op) then 0 else PlaysOf(c, cs, i));
  }

  lemma OthersKeepPlays(c: Cache, op: Op, cs: uint32, i: nat)
    requires Inv(c) && c.nextSequence < UINT32_MAX && !op.PlayOp?
    requires RecordOf(Apply(c, op).tracks, cs, i).Some?
    ensures PlaysOf(Apply(c, op), cs, i) == if Wipes(op) then 0 else PlaysOf(c, cs, i)
  {
    match op
    case SyncOp(cart) => SyncKeepsPlays(c, cart, cs, i);
    case ClearOp => ResetIsEmpty(true);
    case RebuildOp(cart) => RebuildStartsOver(cart, cs, i);
    case RestartOp => RestartKeepsPlays(c, cs, i);
  }

  lemma RebuildStartsOver(cart: Cartridge, cs: uint32, i: nat)
    ensures PlaysOf(Rebuild(cart).1, cs, i) == 0
  {
    ResetIsEmpty(true);
    SyncKeepsPlays(Reset(true), cart, cs, i);
  }

  lemma RestartKeepsPlays(c: Cache, cs: uint32, i: nat)
    requires Inv(c)
    ensures PlaysOf(Load(Image(c)).1, cs, i) == PlaysOf(c, cs, i)
  {
    SaveThenLoad(c);
    RepackedKeepsRecords(c);
  }

  ghost predicate IsRun(states: seq<Cache>, ops: seq<Op>) {
    && |states| == |ops| + 1 && Inv(states[0])
    && (forall k :: 0 <= k < |states| ==> states[k].nextSequence < UINT32_MAX)
    && forall k :: 0 <= k < |ops| ==> Inv(states[k]) ==> states[k + 1] == Apply(states[k], ops[k])
  }

  lemma {:induction false} RunKeepsInv(states: seq<Cache>, ops: seq<Op>, k: nat)
    requires IsRun(states, ops) && k < |states|
    ensures Inv(states[k])
  {
    if k > 0 {
      RunKeepsInv(states, ops, k - 1);
      StepKeepsInv(states[k - 1], ops[k - 1]);
      assert states[k - 1 + 1] == Apply(states[k - 1], ops[k - 1]);
    }
  }

  /** The record was there before this step, and the step wipes nothing. */
  ghost predicate Kept(states: seq<Cache>, ops: seq<Op>, cs: uint32, i: nat, k: nat)
    requires |states| == |ops| + 1 && k < |ops|
  {
    !Wipes(ops[k]) && RecordOf(states[k].tracks, cs, i).Some?
  }

  /** Plays counted since the record was last made: by the run, or before it began. */
  ghost function PlaysSinceMade(states: seq<Cache>, ops: seq<Op>, cs: uint32, i: nat, n: nat): nat
    requires |states| == |ops| + 1 && n < |states|
  {
    if n == 0 then PlaysOf(states[0], cs, i)
    else
      (if Kept(states, ops, cs, i, n - 1) then PlaysSinceMade(states, ops, cs, i, n - 1) else 0) +
      (if Counts(states[n - 1], ops[n - 1], cs, i) then 1 else 0)
  }

  lemma RunStepCounts(states: seq<Cache>, ops: seq<Op>, cs: uint32, i: nat, k: nat)
    requires IsRun(states, ops) && k < |ops|
    requires RecordOf(states[k + 1].tracks, cs, i).Some?
    ensures PlaysOf(states[k + 1], cs, i) ==
            Plus(if Kept(states, ops, cs, i, k) then PlaysOf(states[k], cs, i) else 0,
                 Counts(states[k], ops[k], cs, i))
  {
    RunKeepsInv(states, ops, k);
    StepCounts(states[k], ops[k], cs, i);
  }

  /** An exact count stays exact when the step adds what it should. */
  lemma OneStepExact(states: seq<Cache>, ops: seq<Op>, cs: uint32, i: nat, n: nat)
    requires |states| == |ops| + 1 && 0 < n < |states|
    requires RecordOf(states[n - 1].tracks, cs, i).Some? ==>
               PlaysOf(states[n - 1], cs, i) == PlaysSinceMade(states, ops, cs, i, n - 1) % 0x1_0000_0000
    requires PlaysOf(states[n], cs, i) ==
             Plus(if Kept(states, ops, cs, i, n - 1) then PlaysOf(states[n - 1], cs, i) else 0,
                  Counts(states[n - 1], ops[n - 1], cs, i))
    ensures PlaysOf(states[n], cs, i) == PlaysSinceMade(states, ops, cs, i, n) % 0x1_0000_0000
  {
    AddOne(PlaysSinceMade(states, ops, cs, i, n - 1), Counts(states[n - 1], ops[n - 1], cs, i));
  }

  /** On every run each play count is the number of plays since its record was last made,
      modulo 2 to the 32. */
  lemma {:induction false} PlayCountsAreExact(states: seq<Cache>, ops: seq<Op>, cs: uint32, i: nat, n: nat)
    requires IsRun(states, ops) && n < |states|
    ensures RecordOf(states[n].tracks, cs, i).Some? ==>
              PlaysOf(states[n], cs, i) == PlaysSinceMade(states, ops, cs, i, n) % 0x1_0000_0000
  {
    if n > 0 && RecordOf(states[n].tracks, cs, i).Some? {
      PlayCountsAreExact(states, ops, cs, i, n - 1);
      RunStepCounts(states, ops, cs, i, n - 1);
      OneStepExact(states, ops, cs, i, n);
    }
  }

  lemma AddOne(plays: nat, more: bool)
    ensures Plus(plays % 0x1_0000_0000, more) == Plus(plays, more)
  {
  }

  lemma StepHasRoom(c: Cache, op: Op)
    requires Inv(c) && c.nextSequence < UINT32_MAX
    ensures op.SyncOp? ==> Sync(c, op.cart).0 != NO_MEM
    ensures op.PlayOp? ==> Play(c, op.event, op.cart).0 != NO_MEM
    ensures op.RebuildOp? ==> Rebuild(op.cart).0 != NO_MEM
  {
    match op
    case SyncOp(cart) => SyncKeeps(c, cart);
    case PlayOp(event, cart) => SyncKeeps(c, cart);
    case RebuildOp(cart) =>
      ResetIsEmpty(true);
      SyncKeeps(Reset(true), cart);
    case _ =>
  }
}
