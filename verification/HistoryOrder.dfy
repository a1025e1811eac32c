/** Eviction is first in, first out: albums are numbered in the order they were recorded, on
    every run, so the albums pruned are the ones recorded before all others that stay. */
module HistoryOrder {
  import opened Bytes
  import opened Esp
  import opened HistorySlots
  import opened HistoryLaws
  import opened HistoryImage
  import opened HistoryRuns

  /** Sequence numbers one operation may hand out at most. */
  const NUMBERS_PER_STEP: nat := MAX_TRACK_FILES + 3

  ghost predicate FarFromWrap(c: Cache) {
    c.nextSequence as nat + NUMBERS_PER_STEP < UINT32_MAX as nat
  }

  /** No two albums were first seen at one number, and all before the next to be given. */
  ghost predicate Numbered(albums: seq<Option<Album>>, next: nat) {
    && (forall i :: 0 <= i < |albums| && albums[i].Some? ==> albums[i].value.firstSeen < next)
    && (forall i, j :: 0 <= i < j < |albums| && albums[i].Some? && albums[j].Some? ==>
          albums[i].value.firstSeen != albums[j].value.firstSeen)
  }

  ghost predicate InOrder(c: Cache) {
    0 < c.nextSequence && Numbered(c.albums, c.nextSequence)
  }

  lemma TakenIsNext(next: uint32)
    requires 0 < next < UINT32_MAX
    ensures TakeSequence(next) == (next, next + 1)
  {
  }

  lemma SyncTrackNumbers(c: Cache, checksum: uint32, sequence: uint32, info: CartridgeTrack, index: nat)
    requires 0 < c.nextSequence < UINT32_MAX && index < MAX_TRACK_FILES
    ensures var d := SyncTrack(c, checksum, sequence, info, index).1;
            c.nextSequence <= d.nextSequence as nat <= c.nextSequence as nat + 1 && d.albums == c.albums
  {
    TakenIsNext(c.nextSequence);
  }

  lemma {:induction false} SyncTracksNumbers(c: Cache, checksum: uint32, sequence: uint32, infos: CartridgeTracks, from: nat)
    requires from <= |infos|
    requires 0 < c.nextSequence && c.nextSequence as nat + (|infos| - from) < UINT32_MAX as nat
    ensures var d := SyncTracks(c, checksum, sequence, infos, from).1;
            c.nextSequence <= d.nextSequence as nat <= c.nextSequence as nat + (|infos| - from) && d.albums == c.albums
    decreases |infos| - from
  {
    if from < |infos| {
      SyncTrackNumbers(c, checksum, sequence, infos[from], from);
      var (err, next) := SyncTrack(c, checksum, sequence, infos[from], from);
      if err == OK {
        SyncTracksNumbers(next, checksum, sequence, infos, from + 1);
      }
    }
  }

  lemma AlbumPlaceNumbers(c: Cache, checksum: uint32)
    requires Inv(c) && InOrder(c) && c.nextSequence < UINT32_MAX
    requires |Used(c.albums)| + (if HasAlbum(c.albums, checksum) then 0 else 1) <= MAX_ALBUMS
    ensures var (slot, d) := AlbumPlace(c, checksum, FindAlbum(c.albums, checksum));
            InOrder(d) && c.nextSequence <= d.nextSequence as nat <= c.nextSequence as nat + 1
    ensures !HasAlbum(c.albums, checksum) ==>
              var album := AlbumOf(AlbumPlace(c, checksum, FindAlbum(c.albums, checksum)).1.albums, checksum);
              album.Some? && album.value.firstSeen == c.nextSequence
  {
    TakenIsNext(c.nextSequence);
    AlbumPlaceWorks(c, checksum);
  }

  lemma RecordAlbumNumbers(c: Cache, m: Metadata)
    requires Inv(c) && InOrder(c) && c.nextSequence as nat + 2 < UINT32_MAX as nat
    requires |Used(c.albums)| + (if HasAlbum(c.albums, m.checksum) then 0 else 1) <= MAX_ALBUMS
    ensures var d := RecordAlbum(c, m, FindAlbum(c.albums, m.checksum)).1;
            InOrder(d) && d.nextSequence as nat <= c.nextSequence as nat + 2
    ensures !HasAlbum(c.albums, m.checksum) ==>
              var album := AlbumOf(RecordAlbum(c, m, FindAlbum(c.albums, m.checksum)).1.albums, m.checksum);
              album.Some? && album.value.firstSeen == c.nextSequence
  {
    AlbumPlaceWorks(c, m.checksum);
    AlbumPlaceNumbers(c, m.checksum);
    var (slot, placed) := AlbumPlace(c, m.checksum, FindAlbum(c.albums, m.checksum));
    TakenIsNext(placed.nextSequence);
    assert IsAlbum(m.checksum)(placed.albums[slot.value]);
    var (sequence, next) := TakeSequence(placed.nextSequence);
    TouchAlbumWorks(placed.(nextSequence := next), slot.value, m, sequence);
  }

  /** Each album that went was recorded before every album other than `checksum` that stayed. */
  ghost predicate EarlierWent(c: Cache, d: Cache, checksum: uint32) {
    |d.albums| == |c.albums| &&
    forall i, j :: 0 <= i < |c.albums| && 0 <= j < |c.albums| && c.albums[i].Some? && d.albums[i].None? &&
                   d.albums[j].Some? && d.albums[j].value.checksum != checksum ==>
      c.albums[i].value.firstSeen < d.albums[j].value.firstSeen
  }

  lemma PrunedNumbers(c: Cache, d: Cache, checksum: uint32)
    requires InOrder(c) && PrunedFrom(c, d, checksum) && OldestWent(c, d, checksum)
    ensures InOrder(d) && EarlierWent(c, d, checksum)
  {
    forall i, j | 0 <= i < |c.albums| && 0 <= j < |c.albums| && c.albums[i].Some? && d.albums[i].None? &&
                  d.albums[j].Some? && d.albums[j].value.checksum != checksum
      ensures c.albums[i].value.firstSeen < d.albums[j].value.firstSeen
    {
      assert d.albums[j] == c.albums[j] && i != j;
    }
  }

  /** Making room prunes albums first in, first out. */
  lemma MakeRoomNumbers(c: Cache, m: Metadata)
    requires Inv(c) && InOrder(c)
    ensures InOrder(MakeRoom(c, m).1) && EarlierWent(c, MakeRoom(c, m).1, m.checksum)
  {
    var found := FindAlbum(c.albums, m.checksum);
    var albumDelta := if found.None? then 1 else 0;
    var trackDelta := Missing(c.tracks, m.checksum, 0, |m.tracks|);
    CapacityAlwaysSucceeds(c, m.checksum, |m.tracks|, albumDelta, trackDelta);
    PrunedNumbers(c, MakeRoom(c, m).1, m.checksum);
  }

  lemma CountPlayNumbers(c: Cache, event: PlayEvent, slot: nat)
    requires Inv(c) && InOrder(c) && c.nextSequence < UINT32_MAX
    requires slot < |c.tracks| && c.tracks[slot].Some?
    ensures InOrder(CountPlay(c, event, slot))
  {
    TakenIsNext(c.nextSequence);
    var found := FindAlbum(c.albums, event.checksum);
    if found.Some? {
      assert IsAlbum(event.checksum)(c.albums[found.value]);
    }
  }

  lemma RecordedNumbers(c: Cache, m: Metadata)
    requires Inv(c) && InOrder(c) && FarFromWrap(c)
    ensures var (sequence, d) := RecordAlbum(MakeRoom(c, m).1, m, FindAlbum(c.albums, m.checksum));
            sequence.Some? && InOrder(d) && d.nextSequence as nat <= c.nextSequence as nat + 2
  {
    MakeRoomWorks(c, m);
    MakeRoomNumbers(c, m);
    RecordAlbumNumbers(MakeRoom(c, m).1, m);
    RecordAlbumWorks(MakeRoom(c, m).1, m);
  }

  lemma SyncMetadataNumbers(c: Cache, m: Metadata)
    requires Inv(c) && InOrder(c) && FarFromWrap(c)
    ensures InOrder(SyncMetadata(c, m).1) && SyncMetadata(c, m).1.nextSequence < UINT32_MAX
  {
    MakeRoomWorks(c, m);
    RecordedNumbers(c, m);
    var (sequence, recorded) := RecordAlbum(MakeRoom(c, m).1, m, FindAlbum(c.albums, m.checksum));
    SyncTracksNumbers(recorded, m.checksum, sequence.value, m.tracks, 0);
    var synced := SyncTracks(recorded, m.checksum, sequence.value, m.tracks, 0).1;
    assert InOrder(synced);
  }

  lemma SyncNumbers(c: Cache, cart: Cartridge)
    requires Inv(c) && InOrder(c) && FarFromWrap(c)
    ensures InOrder(Sync(c, cart).1) && Sync(c, cart).1.nextSequence < UINT32_MAX
  {
    if cart.metadata.Some? {
      SyncMetadataNumbers(c, cart.metadata.value);
    }
  }

  lemma PlayNumbers(c: Cache, event: PlayEvent, cart: Cartridge)
    requires Inv(c) && InOrder(c) && FarFromWrap(c)
    ensures InOrder(Play(c, event, cart).1)
  {
    SyncNumbers(c, cart);
    SyncForPlayWorks(c, event, cart);
    var (err, synced) := SyncForPlay(c, event, cart);
    var slot := FindTrack(synced.tracks, event.checksum, event.index);
    if err == OK && slot.Some? {
      assert IsTrack(event.checksum, event.index)(synced.tracks[slot.value]);
      CountPlayNumbers(synced, event, slot.value);
    }
  }

  function FirstSeen(a: Album): uint32 { a.firstSeen }

  lemma RestartNumbers(c: Cache)
    requires Inv(c) && InOrder(c)
    ensures InOrder(Load(Image(c)).1)
  {
    SaveThenLoad(c);
    var records, packed := Records(c.albums), Packed(MAX_ALBUMS, Records(c.albums));
    RecordsUnique(c.albums, FirstSeen);
    forall i | 0 <= i < |packed| && packed[i].Some? ensures packed[i].value.firstSeen < c.nextSequence {
      var slot := RecordIsUsed(c.albums, i);
    }
    forall i, j | 0 <= i < j < |packed| && packed[i].Some? && packed[j].Some?
      ensures packed[i].value.firstSeen != packed[j].value.firstSeen
    {
      assert FirstSeen(records[i]) != FirstSeen(records[j]);
    }
  }

  lemma StepKeepsOrder(c: Cache, op: Op)
    requires Inv(c) && InOrder(c) && FarFromWrap(c)
    ensures InOrder(Apply(c, op))
  {
    match op
    case SyncOp(cart) => SyncNumbers(c, cart);
    case PlayOp(event, cart) => PlayNumbers(c, event, cart);
    case ClearOp =>
    case RebuildOp(cart) =>
      ResetIsEmpty(true);
      SyncNumbers(Reset(true), cart);
    case RestartOp => RestartNumbers(c);
  }

  /** On every run from an empty cache, while numbers are far from wrapping, albums are
      numbered in the order they were recorded. */
  lemma {:induction false} RunKeepsOrder(states: seq<Cache>, ops: seq<Op>, k: nat)
    requires IsRun(states, ops) && states[0] == Reset(false) && k < |states|
    requires forall i :: 0 <= i < |states| ==> FarFromWrap(states[i])
    ensures InOrder(states[k])
  {
    if k > 0 {
      RunKeepsOrder(states, ops, k - 1);
      RunKeepsInv(states, ops, k - 1);
      StepKeepsOrder(states[k - 1], ops[k - 1]);
      assert states[k - 1 + 1] == Apply(states[k - 1], ops[k - 1]);
    }
  }
}
