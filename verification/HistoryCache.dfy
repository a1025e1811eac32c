/** The play history as the firmware keeps it: two slot arrays and their counters, updated
    in place. Every method is proved against the operation on the whole cache it carries out. */
module HistoryCache {
  import opened Bytes
  import opened Esp
  import opened HistorySlots
  import opened HistoryLaws
  import opened HistoryImage
  import opened HistoryRuns

  class PlayHistory {
    const albums: array<Option<Album>>
    const tracks: array<Option<Track>>
    var albumCount: nat
    var trackCount: nat
    var nextSequence: uint32
    var dirty: bool

    /** The counters are the numbers of slots in use. */
    ghost predicate Valid()
      reads this, albums, tracks
    {
      && albums.Length == MAX_ALBUMS && tracks.Length == MAX_TRACKS
      && albumCount == |Used(albums[..])| && trackCount == |Used(tracks[..])|
    }

    ghost function Now(): Cache
      reads this, albums, tracks
    {
      Cache(albums[..], tracks[..], nextSequence, dirty)
    }

    constructor ()
      ensures Valid() && Now() == Reset(false) && fresh(albums) && fresh(tracks)
    {
      albums := new Option<Album>[MAX_ALBUMS](_ => None);
      tracks := new Option<Track>[MAX_TRACKS](_ => None);
      albumCount, trackCount, nextSequence, dirty := 0, 0, 1, false;
      new;
      NonesUnused<Album>(MAX_ALBUMS);
      NonesUnused<Track>(MAX_TRACKS);
      assert albums[..] == Nones(MAX_ALBUMS) && tracks[..] == Nones(MAX_TRACKS);
    }

    // ----- Finding -----

    method FindAlbumSlot(checksum: uint32) returns (slot: Option<nat>)
      ensures slot == FindAlbum(albums[..], checksum)
    {
      for i := 0 to albums.Length
        invariant forall k :: 0 <= k < i ==> !IsAlbum(checksum)(albums[..][k])
      {
        if albums[i].Some? && albums[i].value.checksum == checksum {
          FirstIs(albums[..], IsAlbum(checksum), i);
          return Some(i);
        }
      }
      return None;
    }

    method FindFreeAlbumSlot() returns (slot: Option<nat>)
      ensures slot == First(albums[..], IsFree())
    {
      for i := 0 to albums.Length
        invariant forall k :: 0 <= k < i ==> !IsFree<Album>()(albums[..][k])
      {
        if albums[i].None? {
          FirstIs(albums[..], IsFree(), i);
          return Some(i);
        }
      }
      return None;
    }

    method FindTrackSlot(checksum: uint32, index: nat) returns (slot: Option<nat>)
      ensures slot == FindTrack(tracks[..], checksum, index)
    {
      for i := 0 to tracks.Length
        invariant forall k :: 0 <= k < i ==> !IsTrack(checksum, index)(tracks[..][k])
      {
        if tracks[i].Some? && tracks[i].value.checksum == checksum && tracks[i].value.index as nat == index {
          FirstIs(tracks[..], IsTrack(checksum, index), i);
          return Some(i);
        }
      }
      return None;
    }

    method FindFreeTrackSlot() returns (slot: Option<nat>)
      ensures slot == First(tracks[..], IsFree())
    {
      for i := 0 to tracks.Length
        invariant forall k :: 0 <= k < i ==> !IsFree<Track>()(tracks[..][k])
      {
        if tracks[i].None? {
          FirstIs(tracks[..], IsFree(), i);
          return Some(i);
        }
      }
      return None;
    }

    method FindOldestAlbumSlot(preserve: Option<uint32>) returns (oldest: Option<nat>)
      ensures oldest == Oldest(albums[..], preserve)
    {
      oldest := None;
      var limit := UINT32_MAX;
      for i := 0 to albums.Length
        invariant oldest == Oldest(albums[..i], preserve)
        invariant limit == if oldest.Some? then albums[oldest.value].value.firstSeen else UINT32_MAX
      {
        assert albums[..i + 1][..i] == albums[..i];
        if albums[i].Some? && preserve != Some(albums[i].value.checksum) && albums[i].value.firstSeen < limit {
          limit := albums[i].value.firstSeen;
          oldest := Some(i);
        }
      }
      assert albums[..albums.Length] == albums[..];
    }

    // ----- Making room -----

    method RemoveAlbumAt(slot: nat)
      requires Valid() && slot < albums.Length && albums[slot].Some?
      modifies this`albumCount, this`trackCount, albums, tracks
      ensures Valid() && Now() == RemoveAlbum(old(Now()), slot)
    {
      var checksum := albums[slot].value.checksum;
      UsedWithout(albums[..], slot);
      albums[slot] := None;
      if albumCount > 0 {
        albumCount := albumCount - 1;
      }
      assert albums[..] == old(albums[..])[slot := None];
      RemoveTracks(checksum);
    }

    method RemoveTracks(checksum: uint32)
      requires Valid()
      modifies this`trackCount, tracks
      ensures Valid() && tracks[..] == WithoutAlbum(old(tracks[..]), checksum)
    {
      ghost var before := tracks[..];
      for i := 0 to tracks.Length
        invariant Valid()
        invariant forall k :: i <= k < tracks.Length ==> tracks[k] == before[k]
        invariant forall k :: 0 <= k < i ==>
                    tracks[k] == if before[k].Some? && before[k].value.checksum == checksum then None else before[k]
      {
        if tracks[i].Some? && tracks[i].value.checksum == checksum {
          UsedWithout(tracks[..], i);
          ghost var was := tracks[..];
          tracks[i] := None;
          assert tracks[..] == was[i := None];
          if trackCount > 0 {
            trackCount := trackCount - 1;
          }
        }
      }
    }

    method CountMissingTracks(checksum: uint32, trackTotal: nat) returns (missing: nat)
      ensures missing == Missing(tracks[..], checksum, 0, trackTotal)
    {
      missing := 0;
      for index := 0 to trackTotal
        invariant missing == Missing(tracks[..], checksum, 0, index)
      {
        var slot := FindTrackSlot(checksum, index);
        if slot.None? {
          missing := missing + 1;
        }
      }
    }

    method MakeCapacity(preserve: uint32, albumDelta: nat, trackDelta: nat) returns (err: Err)
      requires Valid()
      modifies this`albumCount, this`trackCount, albums, tracks
      ensures Valid() && (err, Now()) == EnsureCapacity(old(Now()), preserve, albumDelta, trackDelta)
    {
      while albumCount + albumDelta > MAX_ALBUMS || trackCount + trackDelta > MAX_TRACKS
        invariant Valid()
        invariant EnsureCapacity(Now(), preserve, albumDelta, trackDelta) ==
                  EnsureCapacity(old(Now()), preserve, albumDelta, trackDelta)
        decreases albumCount
      {
        var prune := FindOldestAlbumSlot(Some(preserve));
        if prune.None? {
          prune := FindOldestAlbumSlot(None);
        }
        if prune.None? {
          return NO_MEM;
        }
        UsedWithout(albums[..], prune.value);
        RemoveAlbumAt(prune.value);
      }
      return OK;
    }

    // ----- Syncing -----

    method TakeNextSequence() returns (sequence: uint32)
      modifies this`nextSequence
      ensures (sequence, nextSequence) == TakeSequence(old(nextSequence))
    {
      sequence := nextSequence;
      if sequence == 0 {
        sequence := 1;
      }
      nextSequence := (sequence as nat + 1) % 0x1_0000_0000;
      if nextSequence == 0 {
        nextSequence := 1;
      }
    }

    method PutAlbumAt(slot: nat, album: Album)
      requires Valid() && slot < albums.Length
      modifies this`albumCount, albums
      ensures Valid() && Now() == old(Now()).(albums := old(albums[..])[slot := Some(album)])
    {
      UsedWith(albums[..], slot, album);
      if albums[slot].None? {
        albumCount := albumCount + 1;
      }
      albums[slot] := Some(album);
      assert albums[..] == old(albums[..])[slot := Some(album)];
    }

    method PutTrackAt(slot: nat, track: Track)
      requires Valid() && slot < tracks.Length
      modifies this`trackCount, tracks
      ensures Valid() && Now() == old(Now()).(tracks := old(tracks[..])[slot := Some(track)])
    {
      UsedWith(tracks[..], slot, track);
      if tracks[slot].None? {
        trackCount := trackCount + 1;
      }
      tracks[slot] := Some(track);
      assert tracks[..] == old(tracks[..])[slot := Some(track)];
    }

    method RecordAlbumOf(m: Metadata, found: Option<nat>) returns (sequence: Option<uint32>)
      requires Valid() && (found.Some? ==> found.value < albums.Length)
      modifies this`albumCount, this`nextSequence, albums
      ensures Valid() && (sequence, Now()) == RecordAlbum(old(Now()), m, found)
    {
      var slot := found;
      if slot.None? {
        slot := FindFreeAlbumSlot();
        if slot.None? {
          return None;
        }
        var first := TakeNextSequence();
        PutAlbumAt(slot.value, Album(m.checksum, 0, first, 0, NO_METADATA));
      }
      var taken := TakeNextSequence();
      if albums[slot.value].Some? {
        var album := albums[slot.value].value;
        PutAlbumAt(slot.value, album.(trackCount := |m.tracks|, lastSeen := taken, metadata := m.header));
      }
      return Some(taken);
    }

    method SyncTrackAt(checksum: uint32, sequence: uint32, info: CartridgeTrack, index: nat) returns (err: Err)
      requires Valid() && index < MAX_TRACK_FILES
      modifies this`trackCount, this`nextSequence, tracks
      ensures Valid() && (err, Now()) == SyncTrack(old(Now()), checksum, sequence, info, index)
    {
      var slot := FindTrackSlot(checksum, index);
      if slot.None? {
        slot := FindFreeTrackSlot();
        if slot.None? {
          return NO_MEM;
        }
        assert IsFree<Track>()(tracks[..][slot.value]);
        var first := TakeNextSequence();
        PutTrackAt(slot.value, Track(checksum, index, info.fileNum, 0, first, sequence, info.metadata));
        return OK;
      }
      assert IsTrack(checksum, index)(tracks[..][slot.value]);
      var track := tracks[slot.value].value;
      PutTrackAt(slot.value, track.(fileNum := info.fileNum, lastSeen := sequence, metadata := info.metadata));
      return OK;
    }

    method SyncAllTracks(checksum: uint32, sequence: uint32, infos: CartridgeTracks) returns (err: Err)
      requires Valid()
      modifies this`trackCount, this`nextSequence, tracks
      ensures Valid() && (err, Now()) == SyncTracks(old(Now()), checksum, sequence, infos, 0)
    {
      for index := 0 to |infos|
        invariant Valid()
        invariant SyncTracks(Now(), checksum, sequence, infos, index) ==
                  SyncTracks(old(Now()), checksum, sequence, infos, 0)
      {
        err := SyncTrackAt(checksum, sequence, infos[index], index);
        if err != OK {
          return err;
        }
      }
      return OK;
    }

    method SyncCurrentCartridge(cart: Cartridge) returns (err: Err)
      requires Valid()
      modifies this, albums, tracks
      ensures Valid() && (err, Now()) == Sync(old(Now()), cart)
    {
      if !cart.mounted {
        return INVALID_STATE;
      }
      if cart.metadata.None? {
        return NOT_FOUND;
      }
      var m := cart.metadata.value;
      var found := FindAlbumSlot(m.checksum);
      var albumDelta := if found.None? then 1 else 0;
      var trackDelta := CountMissingTracks(m.checksum, |m.tracks|);
      err := MakeCapacity(m.checksum, albumDelta, trackDelta);
      if err != OK {
        return err;
      }
      var sequence := RecordAlbumOf(m, found);
      if sequence.None? {
        return NO_MEM;
      }
      err := SyncAllTracks(m.checksum, sequence.value, m.tracks);
      if err != OK {
        return err;
      }
      dirty := true;
    }

    // ----- Plays -----

    /** `plays` is what listeners are told the count is now. */
    method ApplyCountablePlay(event: PlayEvent, cart: Cartridge) returns (err: Err, plays: uint32)
      requires Valid()
      modifies this, albums, tracks
      ensures Valid() && (err, Now()) == Play(old(Now()), event, cart)
      ensures err == OK ==> plays == PlaysOf(Now(), event.checksum, event.index)
    {
      plays := 0;
      var slot := FindTrackSlot(event.checksum, event.index);
      if slot.None? && cart.metadata.Some? && cart.metadata.value.checksum == event.checksum {
        err := SyncCurrentCartridge(cart);
        if err != OK {
          return err, plays;
        }
        slot := FindTrackSlot(event.checksum, event.index);
      }
      if slot.None? {
        return NOT_FOUND, plays;
      }
      plays := CountPlayAt(event, slot.value);
      err := OK;
    }

    method CountPlayAt(event: PlayEvent, slot: nat) returns (plays: uint32)
      requires Valid() && FindTrack(tracks[..], event.checksum, event.index) == Some(slot)
      modifies this, albums, tracks
      ensures Valid() && old(tracks[slot].Some?) && Now() == CountPlay(old(Now()), event, slot)
      ensures plays == PlaysOf(Now(), event.checksum, event.index)
    {
      assert IsTrack(event.checksum, event.index)(tracks[..][slot]);
      ghost var before := Now();
      var sequence := TakeNextSequence();
      var track := tracks[slot].value;
      plays := (track.playCount as nat + 1) % 0x1_0000_0000;
      PutTrackAt(slot, track.(playCount := plays, fileNum := event.fileNum, lastSeen := sequence));
      var album := FindAlbumSlot(event.checksum);
      if album.Some? {
        assert IsAlbum(event.checksum)(albums[..][album.value]);
        PutAlbumAt(album.value, albums[album.value].value.(lastSeen := sequence));
      }
      dirty := true;
      FoundAgain(before.tracks, slot, event.checksum, event.index, tracks[..]);
    }

    // ----- Clearing -----

    method ResetCache(nowDirty: bool)
      requires albums.Length == MAX_ALBUMS && tracks.Length == MAX_TRACKS
      modifies this, albums, tracks
      ensures Valid() && Now() == Reset(nowDirty)
    {
      for i := 0 to albums.Length
        invariant forall k :: 0 <= k < i ==> albums[k] == None
      {
        albums[i] := None;
      }
      for i := 0 to tracks.Length
        invariant forall k :: 0 <= k < i ==> tracks[k] == None
        invariant forall k :: 0 <= k < albums.Length ==> albums[k] == None
      {
        tracks[i] := None;
      }
      albumCount, trackCount, nextSequence, dirty := 0, 0, 1, nowDirty;
      NonesUnused<Album>(MAX_ALBUMS);
      NonesUnused<Track>(MAX_TRACKS);
      assert albums[..] == Nones(MAX_ALBUMS) && tracks[..] == Nones(MAX_TRACKS);
    }

    // ----- Saving and loading -----

    /** The file image of the cache; it always fits the buffer set aside for it. */
    method BuildImage() returns (image: seq<byte>)
      requires Valid()
      ensures image == Image(Now()) && |image| <= MAX_SERIALIZED_BYTES
    {
      RecordsSize(albums[..]);
      RecordsSize(tracks[..]);
      ImageSize(Now());
      var albumPart := BuildAlbums();
      var trackPart := BuildTracks();
      return Header(nextSequence, albumCount, trackCount) + albumPart + trackPart;
    }

    method BuildAlbums() returns (bytes: seq<byte>)
      ensures bytes == Encode(Records(albums[..]), AlbumBytes)
    {
      bytes := [];
      for i := 0 to albums.Length
        invariant bytes == Encode(Records(albums[..i]), AlbumBytes)
      {
        RecordsStep(albums[..], i);
        assert albums[..][..i] == albums[..i] && albums[..][..i + 1] == albums[..i + 1];
        assert Records(albums[..i]) + [] == Records(albums[..i]);
        if albums[i].Some? {
          EncodeOne(Records(albums[..i]), albums[i].value, AlbumBytes);
          bytes := bytes + AlbumBytes(albums[i].value);
        }
      }
      assert albums[..albums.Length] == albums[..];
    }

    method BuildTracks() returns (bytes: seq<byte>)
      ensures bytes == Encode(Records(tracks[..]), TrackBytes)
    {
      bytes := [];
      for i := 0 to tracks.Length
        invariant bytes == Encode(Records(tracks[..i]), TrackBytes)
      {
        RecordsStep(tracks[..], i);
        assert tracks[..][..i] == tracks[..i] && tracks[..][..i + 1] == tracks[..i + 1];
        assert Records(tracks[..i]) + [] == Records(tracks[..i]);
        if tracks[i].Some? {
          EncodeOne(Records(tracks[..i]), tracks[i].value, TrackBytes);
          bytes := bytes + TrackBytes(tracks[i].value);
        }
      }
      assert tracks[..tracks.Length] == tracks[..];
    }

    /** Loads an image into an emptied cache; a refused one leaves it empty. */
    method LoadImage(b: seq<byte>) returns (err: Err)
      requires albums.Length == MAX_ALBUMS && tracks.Length == MAX_TRACKS
      modifies this, albums, tracks
      ensures Valid() && (err, Now()) == Load(b)
      ensures err == OK <==> Accepted(b)
      ensures err == OK ==> (dirty <==> NextSequence(b) == 0) && nextSequence != 0
      ensures err != OK ==> !dirty && forall i :: 0 <= i < albums.Length ==> albums[i] == None
      ensures err != OK ==> forall i :: 0 <= i < tracks.Length ==> tracks[i] == None
    {
      ResetCache(false);
      if |b| < FILE_HEADER_BYTES {
        return FAIL;
      }
      if Version(b) != STATE_VERSION || AlbumCount(b) > MAX_ALBUMS || TrackCount(b) > MAX_TRACKS {
        return INVALID_RESPONSE;
      }
      if |b| != SerializedSize(AlbumCount(b), TrackCount(b)) {
        return INVALID_RESPONSE;
      }
      nextSequence := if NextSequence(b) == 0 then 1 else NextSequence(b);
      LoadAlbums(b);
      LoadTracks(b);
      if NextSequence(b) == 0 {
        nextSequence := 1;
        dirty := true;
      }
      return OK;
    }

    /** One record into the first free slot. */
    method LoadAlbum(bytes: seq<byte>, ghost done: seq<Album>)
      requires Valid() && |bytes| == DISK_ALBUM_BYTES && |done| < MAX_ALBUMS && albums[..] == Packed(MAX_ALBUMS, done)
      modifies this`albumCount, albums
      ensures Valid() && albums[..] == Packed(MAX_ALBUMS, done + [AlbumOfBytes(bytes)])
    {
      PackedFree(MAX_ALBUMS, done);
      var slot := FindFreeAlbumSlot();
      PackedOne(MAX_ALBUMS, done, AlbumOfBytes(bytes));
      PutAlbumAt(slot.value, AlbumOfBytes(bytes));
    }

    method LoadAlbums(b: seq<byte>)
      requires Valid() && Accepted(b) && albums[..] == Nones(MAX_ALBUMS)
      modifies this`albumCount, albums
      ensures Valid() && albums[..] == Packed(MAX_ALBUMS, AlbumsIn(b))
    {
      ghost var done: seq<Album> := [];
      var cursor: nat := FILE_HEADER_BYTES;
      ghost var end: nat := TracksStart(b);
      var total: nat := AlbumCount(b);
      NonesArePacked<Album>(MAX_ALBUMS);
      AlbumsToCome(b);
      for index := 0 to total
        invariant Valid() && |done| == index && albums[..] == Packed(MAX_ALBUMS, done)
        invariant ToCome(b, cursor, end, DISK_ALBUM_BYTES, total - index, AlbumOfBytes, done, AlbumsIn(b))
      {
        DecodeOne(b, cursor, end, DISK_ALBUM_BYTES, total - index, AlbumOfBytes, done, AlbumsIn(b));
        LoadAlbum(b[cursor..cursor + DISK_ALBUM_BYTES], done);
        done := done + [AlbumOfBytes(b[cursor..cursor + DISK_ALBUM_BYTES])];
        cursor := cursor + DISK_ALBUM_BYTES;
      }
      DecodedAll(b, cursor, end, DISK_ALBUM_BYTES, AlbumOfBytes, done, AlbumsIn(b));
    }

    /** One record into the first free slot. */
    method LoadTrack(bytes: seq<byte>, ghost done: seq<Track>)
      requires Valid() && |bytes| == DISK_TRACK_BYTES && |done| < MAX_TRACKS && tracks[..] == Packed(MAX_TRACKS, done)
      modifies this`trackCount, tracks
      ensures Valid() && tracks[..] == Packed(MAX_TRACKS, done + [TrackOfBytes(bytes)])
    {
      PackedFree(MAX_TRACKS, done);
      var slot := FindFreeTrackSlot();
      PackedOne(MAX_TRACKS, done, TrackOfBytes(bytes));
      PutTrackAt(slot.value, TrackOfBytes(bytes));
    }

    method LoadTracks(b: seq<byte>)
      requires Valid() && Accepted(b) && tracks[..] == Nones(MAX_TRACKS)
      modifies this`trackCount, tracks
      ensures Valid() && tracks[..] == Packed(MAX_TRACKS, TracksIn(b))
    {
      ghost var done: seq<Track> := [];
      var cursor: nat := FILE_HEADER_BYTES + AlbumCount(b) * DISK_ALBUM_BYTES;
      ghost var end: nat := |b|;
      var total: nat := TrackCount(b);
      NonesArePacked<Track>(MAX_TRACKS);
      TracksToCome(b);
      for index := 0 to total
        invariant Valid() && |done| == index && tracks[..] == Packed(MAX_TRACKS, done)
        invariant ToCome(b, cursor, end, DISK_TRACK_BYTES, total - index, TrackOfBytes, done, TracksIn(b))
      {
        DecodeOne(b, cursor, end, DISK_TRACK_BYTES, total - index, TrackOfBytes, done, TracksIn(b));
        LoadTrack(b[cursor..cursor + DISK_TRACK_BYTES], done);
        done := done + [TrackOfBytes(b[cursor..cursor + DISK_TRACK_BYTES])];
        cursor := cursor + DISK_TRACK_BYTES;
      }
      DecodedAll(b, cursor, end, DISK_TRACK_BYTES, TrackOfBytes, done, TracksIn(b));
    }

    /** One event of the inbox. */
    method ProcessEvent(op: Op) returns (err: Err)
      requires Valid() && Inv(Now()) && !op.RestartOp?
      modifies this, albums, tracks
      ensures Valid() && Now() == Apply(old(Now()), op)
      ensures op.SyncOp? ==> err == Sync(old(Now()), op.cart).0
      ensures op.PlayOp? ==> err == Play(old(Now()), op.event, op.cart).0
      ensures op.RebuildOp? ==> err == Rebuild(op.cart).0
      ensures old(nextSequence) < UINT32_MAX ==> Inv(Now()) && err != NO_MEM
    {
      if nextSequence < UINT32_MAX {
        StepKeepsInv(Now(), op);
        StepHasRoom(Now(), op);
      }
      match op {
        case SyncOp(cart) =>
          err := SyncCurrentCartridge(cart);
        case PlayOp(event, cart) =>
          var plays;
          err, plays := ApplyCountablePlay(event, cart);
        case ClearOp =>
          ResetCache(true);
          err := OK;
        case RebuildOp(cart) =>
          ResetCache(true);
          err := SyncCurrentCartridge(cart);
      }
    }
  }
}
