/** What one operation of the play history changes, record by record, and what it leaves alone. */
module HistoryEffects {
  import opened Bytes
  import opened Esp
  import opened HistorySlots
  import opened HistoryLaws
  import opened HistoryRuns
  import opened HistoryOrder

  // ----- Sequence numbers -----

  /** Numbers run from 1 to the largest and start over. */
  function NumberAfter(n: uint32): uint32 {
    n % UINT32_MAX + 1
  }

  /** The number a cache gives next; a zero read from a file counts as one. */
  function Given(c: Cache): uint32 {
    if c.nextSequence == 0 then 1 else c.nextSequence
  }

  lemma NumbersGoRound(c: Cache)
    ensures TakeSequence(c.nextSequence) == (Given(c), NumberAfter(Given(c)))
    ensures Given(c) != 0 && NumberAfter(Given(c)) != 0
  {
  }

  // ----- A play -----

  /** The record of the event's track: one more play, the event's file and this sighting. */
  ghost predicate TrackCounted(before: seq<Option<Track>>, after: seq<Option<Track>>, event: PlayEvent, n: uint32) {
    && RecordOf(before, event.checksum, event.index).Some?
    && var was := RecordOf(before, event.checksum, event.index).value;
    && RecordOf(after, event.checksum, event.index) ==
       Some(was.(playCount := (was.playCount as nat + 1) % 0x1_0000_0000, fileNum := event.fileNum, lastSeen := n))
    && forall cs, i: nat :: cs != event.checksum || i != event.index ==>
         RecordOf(after, cs, i) == RecordOf(before, cs, i)
  }

  /** The record of the event's album: this sighting and nothing else. */
  ghost predicate AlbumSighted(before: seq<Option<Album>>, after: seq<Option<Album>>, checksum: uint32, n: uint32) {
    && AlbumOf(before, checksum).Some?
    && AlbumOf(after, checksum) == Some(AlbumOf(before, checksum).value.(lastSeen := n))
    && forall cs :: cs != checksum ==> AlbumOf(after, cs) == AlbumOf(before, cs)
  }

  ghost predicate Counted(before: Cache, after: Cache, event: PlayEvent) {
    && TrackCounted(before.tracks, after.tracks, event, Given(before))
    && AlbumSighted(before.albums, after.albums, event.checksum, Given(before))
    && after.nextSequence == NumberAfter(Given(before)) && after.dirty
  }

  lemma TrackOfPlay(c: Cache, event: PlayEvent, slot: nat)
    requires Inv(c) && FindTrack(c.tracks, event.checksum, event.index) == Some(slot)
    ensures c.tracks[slot].Some? && TrackCounted(c.tracks, CountPlay(c, event, slot).tracks, event, Given(c))
  {
    assert IsTrack(event.checksum, event.index)(c.tracks[slot]);
    var track := CountPlay(c, event, slot).tracks[slot].value;
    PutTrack(c.tracks, slot, track);
    forall cs, i: nat | cs != event.checksum || i != event.index
      ensures RecordOf(CountPlay(c, event, slot).tracks, cs, i) == RecordOf(c.tracks, cs, i)
    {
      PutTrackKeepsOthers(c.tracks, slot, track, cs, i);
    }
  }

  lemma AlbumOfPlay(c: Cache, event: PlayEvent, slot: nat)
    requires Inv(c) && FindTrack(c.tracks, event.checksum, event.index) == Some(slot)
    ensures c.tracks[slot].Some?
    ensures AlbumSighted(c.albums, CountPlay(c, event, slot).albums, event.checksum, Given(c))
  {
    assert IsTrack(event.checksum, event.index)(c.tracks[slot]);
    assert HasAlbum(c.albums, event.checksum);
    var at := FindAlbum(c.albums, event.checksum).value;
    assert IsAlbum(event.checksum)(c.albums[at]);
    var after := CountPlay(c, event, slot).albums;
    PutAlbum(c.albums, at, after[at].value);
    forall cs | cs != event.checksum ensures AlbumOf(after, cs) == AlbumOf(c.albums, cs) {
      PutAlbumKeepsOthers(c.albums, at, after[at].value, cs);
    }
  }

  lemma CountPlayChanges(c: Cache, event: PlayEvent, slot: nat)
    requires Inv(c) && FindTrack(c.tracks, event.checksum, event.index) == Some(slot)
    ensures c.tracks[slot].Some? && Counted(c, CountPlay(c, event, slot), event)
  {
    TrackOfPlay(c, event, slot);
    AlbumOfPlay(c, event, slot);
  }

  /** The cache a play is counted in: the one there is, unless the track has no record and the
      cartridge with its album is synced first. */
  ghost function CountedIn(c: Cache, event: PlayEvent, cart: Cartridge): Cache {
    if RecordOf(c.tracks, event.checksum, event.index).None? && cart.metadata.Some? &&
       cart.metadata.value.checksum == event.checksum
    then Sync(c, cart).1 else c
  }

  lemma CountedInWorks(c: Cache, event: PlayEvent, cart: Cartridge)
    requires Inv(c) && c.nextSequence < UINT32_MAX
    ensures CountedIn(c, event, cart) == SyncForPlay(c, event, cart).1 && Inv(CountedIn(c, event, cart))
  {
    SyncForPlayWorks(c, event, cart);
  }

  /** A play that is counted changes the records of its track and its album, as said, and no
      other; a play that is not counted changes nothing but what the sync before it did. */
  lemma PlayChangesItsRecords(c: Cache, event: PlayEvent, cart: Cartridge)
    requires Inv(c) && c.nextSequence < UINT32_MAX
    ensures var (err, d) := Play(c, event, cart);
            if err == OK then Counted(CountedIn(c, event, cart), d, event)
            else d == CountedIn(c, event, cart)
  {
    CountedInWorks(c, event, cart);
    var before := CountedIn(c, event, cart);
    var slot := FindTrack(before.tracks, event.checksum, event.index);
    if SyncForPlay(c, event, cart).0 == OK && slot.Some? {
      CountPlayChanges(before, event, slot.value);
    }
  }

  /** No change waits unmarked: whatever an event changes in the records, it leaves to be saved. */
  lemma ChangesAreMarked(c: Cache, op: Op)
    requires Inv(c) && c.nextSequence < UINT32_MAX && !op.RestartOp?
    ensures Apply(c, op).dirty || (Apply(c, op) == c && !Wipes(op))
  {
    match op
    case SyncOp(cart) => SyncKeeps(c, cart);
    case PlayOp(event, cart) => PlayMarks(c, event, cart);
    case RebuildOp(cart) => RebuildMarks(cart);
    case ClearOp =>
  }

  lemma PlayMarks(c: Cache, event: PlayEvent, cart: Cartridge)
    requires Inv(c) && c.nextSequence < UINT32_MAX
    ensures Play(c, event, cart).1.dirty || Play(c, event, cart).1 == c
  {
    SyncKeeps(c, cart);
    PlayChangesItsRecords(c, event, cart);
  }

  lemma RebuildMarks(cart: Cartridge)
    ensures Rebuild(cart).1.dirty
  {
    ResetIsEmpty(true);
    SyncKeeps(Reset(true), cart);
  }

  // ----- Pruning -----

  /** Every record of `d` is one of `c`, in its slot. */
  ghost predicate Within(d: Cache, c: Cache) {
    && |d.albums| == |c.albums| && |d.tracks| == |c.tracks|
    && (forall i :: 0 <= i < |c.albums| ==> d.albums[i] == c.albums[i] || d.albums[i] == None)
    && (forall i :: 0 <= i < |c.tracks| ==> d.tracks[i] == c.tracks[i] || d.tracks[i] == None)
  }

  /** Pruning stops as soon as there is room: without the album that went last there was none. */
  lemma {:induction false} LastPruneWasNeeded(c: Cache, preserve: uint32, albumDelta: nat, trackDelta: nat)
    returns (e: Cache, slot: nat)
    requires EnsureCapacity(c, preserve, albumDelta, trackDelta).1 != c
    ensures Within(e, c) && !Fits(e, albumDelta, trackDelta) && slot < |e.albums| && e.albums[slot].Some?
    ensures RemoveAlbum(e, slot) == EnsureCapacity(c, preserve, albumDelta, trackDelta).1
    decreases |Used(c.albums)|
  {
    var oldest := Oldest(c.albums, Some(preserve));
    var prune := if oldest.Some? then oldest else Oldest(c.albums, None);
    var next := RemoveAlbum(c, prune.value);
    e, slot := c, prune.value;
    UsedWithout(c.albums, prune.value);
    if EnsureCapacity(next, preserve, albumDelta, trackDelta).1 != next {
      e, slot := LastPruneWasNeeded(next, preserve, albumDelta, trackDelta);
    }
  }

  // ----- A sync -----

  /** Other albums keep their records or go. */
  lemma SyncKeepsOtherAlbums(c: Cache, m: Metadata, cs: uint32)
    requires Inv(c) && c.nextSequence < UINT32_MAX && cs != m.checksum
    ensures var after := AlbumOf(SyncMetadata(c, m).1.albums, cs);
            after == AlbumOf(c.albums, cs) || after == None
  {
    MakeRoomWorks(c, m);
    var pruned := MakeRoom(c, m).1;
    RecordAlbumWorks(pruned, m);
    var (sequence, recorded) := RecordAlbum(pruned, m, FindAlbum(c.albums, m.checksum));
    SyncTracksWork(recorded, m.checksum, sequence.value, m.tracks, 0);
    RecordAlbumKeepsOthers(pruned, m, cs);
    PruningKeepsAlbums(c, m, cs);
  }

  lemma PruningKeepsAlbums(c: Cache, m: Metadata, cs: uint32)
    requires Inv(c)
    ensures var after := AlbumOf(MakeRoom(c, m).1.albums, cs);
            after == AlbumOf(c.albums, cs) || after == None
  {
    var albumDelta := if FindAlbum(c.albums, m.checksum).None? then 1 else 0;
    var trackDelta := Missing(c.tracks, m.checksum, 0, |m.tracks|);
    CapacityAlwaysSucceeds(c, m.checksum, |m.tracks|, albumDelta, trackDelta);
    var d := MakeRoom(c, m).1;
    var at := FindAlbum(d.albums, cs);
    if at.Some? {
      assert IsAlbum(cs)(d.albums[at.value]) && d.albums[at.value] == c.albums[at.value];
      AlbumAt(c.albums, at.value);
    }
  }

  lemma RecordAlbumKeepsOthers(c: Cache, m: Metadata, cs: uint32)
    requires Inv(c) && c.nextSequence < UINT32_MAX && cs != m.checksum
    requires |Used(c.albums)| + (if HasAlbum(c.albums, m.checksum) then 0 else 1) <= MAX_ALBUMS
    ensures AlbumOf(RecordAlbum(c, m, FindAlbum(c.albums, m.checksum)).1.albums, cs) == AlbumOf(c.albums, cs)
  {
    AlbumPlaceWorks(c, m.checksum);
    var found := FindAlbum(c.albums, m.checksum);
    var (slot, placed) := AlbumPlace(c, m.checksum, found);
    if found.None? {
      assert IsFree<Album>()(c.albums[slot.value]);
      PutAlbumKeepsOthers(c.albums, slot.value, placed.albums[slot.value].value, cs);
    }
    assert IsAlbum(m.checksum)(placed.albums[slot.value]);
    var after := RecordAlbum(c, m, found).1.albums;
    PutAlbumKeepsOthers(placed.albums, slot.value, after[slot.value].value, cs);
  }

  // ----- The numbers a sync gives -----

  lemma TrackNumbered(c: Cache, checksum: uint32, sequence: uint32, info: CartridgeTrack, index: nat)
    requires Inv(c) && HasAlbum(c.albums, checksum) && index < MAX_TRACK_FILES && 0 < c.nextSequence < UINT32_MAX
    requires |Used(c.tracks)| + (if RecordOf(c.tracks, checksum, index).None? then 1 else 0) <= MAX_TRACKS
    ensures var d := SyncTrack(c, checksum, sequence, info, index).1;
            var made := RecordOf(c.tracks, checksum, index).None?;
            && d.nextSequence as nat == c.nextSequence as nat + (if made then 1 else 0)
            && RecordOf(d.tracks, checksum, index).Some?
            && (made ==> RecordOf(d.tracks, checksum, index).value.firstSeen == c.nextSequence)
  {
    TakenIsNext(c.nextSequence);
    SyncTrackWorks(c, checksum, sequence, info, index);
    var place := TrackPlace(c.tracks, checksum, index).value;
    var d := SyncTrack(c, checksum, sequence, info, index).1;
    if RecordOf(c.tracks, checksum, index).None? {
      assert IsFree<Track>()(c.tracks[place]);
    } else {
      assert IsTrack(checksum, index)(c.tracks[place]);
    }
    TrackAt(d.tracks, place);
  }

  /** The tracks that are recorded anew get the next numbers, in order. */
  ghost predicate NumberedFrom(before: seq<Option<Track>>, after: seq<Option<Track>>, checksum: uint32, from: nat, to: nat,
                               n: nat)
  {
    forall i :: from <= i < to && RecordOf(before, checksum, i).None? ==>
      RecordOf(after, checksum, i).Some? &&
      RecordOf(after, checksum, i).value.firstSeen == n + Missing(before, checksum, from, i)
  }

  /** The tracks behind the one synced are as before. */
  ghost predicate SameBehind(before: seq<Option<Track>>, after: seq<Option<Track>>, checksum: uint32, from: nat, to: nat) {
    forall i :: from < i < to ==> RecordOf(after, checksum, i) == RecordOf(before, checksum, i)
  }

  /** One track is synced, which takes the numbers from `n` to `m`, and then the others after it. */
  ghost predicate OneStep(before: seq<Option<Track>>, next: seq<Option<Track>>, after: seq<Option<Track>>,
                          checksum: uint32, from: nat, to: nat, n: nat, m: nat)
  {
    && from < to && RecordOf(after, checksum, from) == RecordOf(next, checksum, from)
    && SameBehind(before, next, checksum, from, to)
    && (RecordOf(before, checksum, from).None? ==>
          RecordOf(next, checksum, from).Some? && RecordOf(next, checksum, from).value.firstSeen == n)
    && m == n + if RecordOf(before, checksum, from).None? then 1 else 0
  }

  lemma NumberedStep(before: seq<Option<Track>>, next: seq<Option<Track>>, after: seq<Option<Track>>, checksum: uint32,
                     from: nat, to: nat, n: nat, m: nat)
    requires OneStep(before, next, after, checksum, from, to, n, m)
    requires NumberedFrom(next, after, checksum, from + 1, to, m)
    ensures NumberedFrom(before, after, checksum, from, to, n)
  {
    forall i | from <= i < to && RecordOf(before, checksum, i).None?
      ensures RecordOf(after, checksum, i).Some? &&
              RecordOf(after, checksum, i).value.firstSeen == n + Missing(before, checksum, from, i)
    {
      if from < i {
        assert RecordOf(next, checksum, i) == RecordOf(before, checksum, i);
        MissingFront(before, checksum, from, i);
        MissingSame(before, next, checksum, from + 1, i);
      }
    }
  }

  /** Numbers are far from wrapping while the tracks from `from` on are synced. */
  ghost predicate CanNumber(c: Cache, checksum: uint32, infos: CartridgeTracks, from: nat) {
    && Inv(c) && HasAlbum(c.albums, checksum) && from <= |infos| && RoomFor(c, checksum, from, |infos|)
    && 0 < c.nextSequence && c.nextSequence as nat + |infos| - from < UINT32_MAX as nat
  }

  ghost predicate TracksNumber(c: Cache, checksum: uint32, sequence: uint32, infos: CartridgeTracks, from: nat)
    requires from <= |infos|
  {
    var d := SyncTracks(c, checksum, sequence, infos, from).1;
    && d.nextSequence as nat == c.nextSequence as nat + Missing(c.tracks, checksum, from, |infos|)
    && NumberedFrom(c.tracks, d.tracks, checksum, from, |infos|, c.nextSequence)
  }

  lemma NextCanNumber(c: Cache, checksum: uint32, sequence: uint32, infos: CartridgeTracks, from: nat)
    requires CanNumber(c, checksum, infos, from) && from < |infos|
    ensures var (err, next) := SyncTrack(c, checksum, sequence, infos[from], from);
            && err == OK && CanNumber(next, checksum, infos, from + 1)
            && next.nextSequence as nat + Missing(next.tracks, checksum, from + 1, |infos|) ==
               c.nextSequence as nat + Missing(c.tracks, checksum, from, |infos|)
  {
    MissingFront(c.tracks, checksum, from, |infos|);
    TrackNumbered(c, checksum, sequence, infos[from], from);
    SyncTrackWorks(c, checksum, sequence, infos[from], from);
    MissingSame(c.tracks, SyncTrack(c, checksum, sequence, infos[from], from).1.tracks, checksum, from + 1, |infos|);
  }

  lemma OneTrackSynced(c: Cache, checksum: uint32, sequence: uint32, infos: CartridgeTracks, from: nat)
    requires CanNumber(c, checksum, infos, from) && from < |infos|
    ensures SameBehind(c.tracks, SyncTrack(c, checksum, sequence, infos[from], from).1.tracks, checksum, from, |infos|)
  {
    MissingFront(c.tracks, checksum, from, |infos|);
    SyncTrackWorks(c, checksum, sequence, infos[from], from);
  }

  lemma EarlierTrackStays(c: Cache, checksum: uint32, sequence: uint32, infos: CartridgeTracks, from: nat)
    requires CanNumber(c, checksum, infos, from) && from > 0
    ensures RecordOf(SyncTracks(c, checksum, sequence, infos, from).1.tracks, checksum, from - 1) ==
            RecordOf(c.tracks, checksum, from - 1)
  {
    SyncTracksWork(c, checksum, sequence, infos, from);
  }

  lemma FirstTrackNumbered(c: Cache, checksum: uint32, sequence: uint32, infos: CartridgeTracks, from: nat)
    requires CanNumber(c, checksum, infos, from) && from < |infos|
    ensures var (err, d) := SyncTrack(c, checksum, sequence, infos[from], from);
            var made := RecordOf(c.tracks, checksum, from).None?;
            && err == OK && d.nextSequence as nat == c.nextSequence as nat + (if made then 1 else 0)
            && RecordOf(d.tracks, checksum, from).Some?
            && (made ==> RecordOf(d.tracks, checksum, from).value.firstSeen == c.nextSequence)
  {
    MissingFront(c.tracks, checksum, from, |infos|);
    TrackNumbered(c, checksum, sequence, infos[from], from);
    SyncTrackWorks(c, checksum, sequence, infos[from], from);
  }

  lemma OneStepTaken(c: Cache, checksum: uint32, sequence: uint32, infos: CartridgeTracks, from: nat)
    requires CanNumber(c, checksum, infos, from) && from < |infos|
    ensures var next := SyncTrack(c, checksum, sequence, infos[from], from).1;
            OneStep(c.tracks, next.tracks, SyncTracks(next, checksum, sequence, infos, from + 1).1.tracks, checksum, from,
                    |infos|, c.nextSequence, next.nextSequence)
  {
    NextCanNumber(c, checksum, sequence, infos, from);
    FirstTrackNumbered(c, checksum, sequence, infos, from);
    OneTrackSynced(c, checksum, sequence, infos, from);
    EarlierTrackStays(SyncTrack(c, checksum, sequence, infos[from], from).1, checksum, sequence, infos, from + 1);
  }

  lemma TracksNumberOne(c: Cache, next: Cache, checksum: uint32, sequence: uint32, infos: CartridgeTracks, from: nat)
    requires from < |infos| && SyncTrack(c, checksum, sequence, infos[from], from) == (OK, next)
    requires OneStep(c.tracks, next.tracks, SyncTracks(next, checksum, sequence, infos, from + 1).1.tracks, checksum, from,
                     |infos|, c.nextSequence, next.nextSequence)
    requires TracksNumber(next, checksum, sequence, infos, from + 1)
    requires next.nextSequence as nat + Missing(next.tracks, checksum, from + 1, |infos|) ==
             c.nextSequence as nat + Missing(c.tracks, checksum, from, |infos|)
    ensures TracksNumber(c, checksum, sequence, infos, from)
  {
    NumberedStep(c.tracks, next.tracks, SyncTracks(next, checksum, sequence, infos, from + 1).1.tracks, checksum, from,
                 |infos|, c.nextSequence, next.nextSequence);
  }

  lemma {:induction false} TracksNumbered(c: Cache, checksum: uint32, sequence: uint32, infos: CartridgeTracks, from: nat)
    requires CanNumber(c, checksum, infos, from)
    ensures TracksNumber(c, checksum, sequence, infos, from)
    decreases |infos| - from
  {
    if from < |infos| {
      var next := SyncTrack(c, checksum, sequence, infos[from], from).1;
      NextCanNumber(c, checksum, sequence, infos, from);
      TracksNumbered(next, checksum, sequence, infos, from + 1);
      OneStepTaken(c, checksum, sequence, infos, from);
      TracksNumberOne(c, next, checksum, sequence, infos, from);
    }
  }

  lemma AlbumNumbered(c: Cache, m: Metadata)
    requires Inv(c) && 0 < c.nextSequence && c.nextSequence as nat + 2 < UINT32_MAX as nat
    requires |Used(c.albums)| + (if HasAlbum(c.albums, m.checksum) then 0 else 1) <= MAX_ALBUMS
    ensures var (sequence, d) := RecordAlbum(c, m, FindAlbum(c.albums, m.checksum));
            var seen := c.nextSequence as nat + if HasAlbum(c.albums, m.checksum) then 0 else 1;
            && sequence == Some(seen as uint32) && d.nextSequence as nat == seen + 1
            && AlbumOf(d.albums, m.checksum).Some? && AlbumOf(d.albums, m.checksum).value.lastSeen as nat == seen
            && (!HasAlbum(c.albums, m.checksum) ==>
                  AlbumOf(d.albums, m.checksum).value.firstSeen == c.nextSequence)
  {
    AlbumPlaceWorks(c, m.checksum);
    RecordAlbumWorks(c, m);
    TakenIsNext(c.nextSequence);
    var found := FindAlbum(c.albums, m.checksum);
    var (slot, placed) := AlbumPlace(c, m.checksum, found);
    TakenIsNext(placed.nextSequence);
    assert IsAlbum(m.checksum)(placed.albums[slot.value]);
    TouchAlbumWorks(placed.(nextSequence := placed.nextSequence + 1), slot.value, m, placed.nextSequence);
  }

  lemma NumberedSame(before: seq<Option<Track>>, same: seq<Option<Track>>, after: seq<Option<Track>>, checksum: uint32,
                     to: nat, n: nat)
    requires forall i :: 0 <= i < to ==> (RecordOf(before, checksum, i).None? <==> RecordOf(same, checksum, i).None?)
    requires NumberedFrom(same, after, checksum, 0, to, n)
    ensures NumberedFrom(before, after, checksum, 0, to, n)
    ensures Missing(before, checksum, 0, to) == Missing(same, checksum, 0, to)
  {
    MissingSame(before, same, checksum, 0, to);
    forall i | 0 <= i < to && RecordOf(before, checksum, i).None?
      ensures RecordOf(after, checksum, i).Some? &&
              RecordOf(after, checksum, i).value.firstSeen == n + Missing(before, checksum, 0, i)
    {
      assert RecordOf(same, checksum, i).None?;
      MissingSame(before, same, checksum, 0, i);
    }
  }

  lemma TracksOfSyncNumbered(c: Cache, m: Metadata)
    requires Inv(c) && 0 < c.nextSequence && c.nextSequence as nat + |m.tracks| + 2 < UINT32_MAX as nat
    ensures var (sequence, recorded) := RecordAlbum(MakeRoom(c, m).1, m, FindAlbum(c.albums, m.checksum));
            var d := SyncMetadata(c, m).1;
            && d.albums == recorded.albums
            && NumberedFrom(c.tracks, d.tracks, m.checksum, 0, |m.tracks|, recorded.nextSequence)
            && d.nextSequence as nat == recorded.nextSequence as nat + Missing(c.tracks, m.checksum, 0, |m.tracks|)
  {
    MakeRoomWorks(c, m);
    var pruned := MakeRoom(c, m).1;
    RecordAlbumWorks(pruned, m);
    AlbumNumbered(pruned, m);
    var (sequence, recorded) := RecordAlbum(pruned, m, FindAlbum(c.albums, m.checksum));
    SyncTracksWork(recorded, m.checksum, sequence.value, m.tracks, 0);
    TracksNumbered(recorded, m.checksum, sequence.value, m.tracks, 0);
    var synced := SyncTracks(recorded, m.checksum, sequence.value, m.tracks, 0).1;
    assert SyncMetadata(c, m).1 == synced.(dirty := true);
    forall i | 0 <= i < |m.tracks|
      ensures RecordOf(c.tracks, m.checksum, i).None? <==> RecordOf(recorded.tracks, m.checksum, i).None?
    {
    }
    NumberedSame(c.tracks, recorded.tracks, synced.tracks, m.checksum, |m.tracks|, recorded.nextSequence);
  }

  /** Every number a sync gives: to the album if it is new, to this sighting, and then to each new
      track in turn. */
  lemma SyncGivesNumbersInTurn(c: Cache, m: Metadata)
    requires Inv(c) && 0 < c.nextSequence && c.nextSequence as nat + |m.tracks| + 2 < UINT32_MAX as nat
    ensures var d := SyncMetadata(c, m).1;
            var isNew := AlbumOf(c.albums, m.checksum).None?;
            var seen := c.nextSequence as nat + if isNew then 1 else 0;
            && AlbumOf(d.albums, m.checksum).Some? && AlbumOf(d.albums, m.checksum).value.lastSeen as nat == seen
            && (isNew ==> AlbumOf(d.albums, m.checksum).value.firstSeen == c.nextSequence)
            && NumberedFrom(c.tracks, d.tracks, m.checksum, 0, |m.tracks|, seen + 1)
            && d.nextSequence as nat == seen + 1 + Missing(c.tracks, m.checksum, 0, |m.tracks|)
  {
    MakeRoomWorks(c, m);
    var pruned := MakeRoom(c, m).1;
    assert HasAlbum(pruned.albums, m.checksum) <==> AlbumOf(c.albums, m.checksum).Some?;
    AlbumNumbered(pruned, m);
    RecordAlbumWorks(pruned, m);
    TracksOfSyncNumbered(c, m);
  }
}
