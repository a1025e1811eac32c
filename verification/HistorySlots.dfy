/** The play history's two slot arrays: finding, pruning, syncing with the cartridge and
    counting plays, as functions of the whole cache. */
module HistorySlots {
  import opened Bytes
  import opened Esp

  const MAX_ALBUMS: nat := 50
  const MAX_TRACKS: nat := 1000
  const MAX_TRACK_FILES: nat := 999
  const ALBUM_METADATA_BYTES: nat := 1652
  const TRACK_METADATA_BYTES: nat := 392

  datatype Option<+T> = None | Some(value: T)

  function Zeros(n: nat): (zeros: seq<byte>)
    ensures |zeros| == n
  {
    seq(n, _ => 0)
  }

  type AlbumMetadata = b: seq<byte> | |b| == ALBUM_METADATA_BYTES witness Zeros(ALBUM_METADATA_BYTES)
  type TrackMetadata = b: seq<byte> | |b| == TRACK_METADATA_BYTES witness Zeros(TRACK_METADATA_BYTES)

  const NO_METADATA: AlbumMetadata := Zeros(ALBUM_METADATA_BYTES)

  datatype Album = Album(checksum: uint32, trackCount: uint32, firstSeen: uint32, lastSeen: uint32,
                         metadata: AlbumMetadata)

  datatype Track = Track(checksum: uint32, index: uint32, fileNum: uint32, playCount: uint32,
                         firstSeen: uint32, lastSeen: uint32, metadata: TrackMetadata)

  /** Slots that are not in use are `None`. */
  datatype Cache = Cache(albums: seq<Option<Album>>, tracks: seq<Option<Track>>,
                         nextSequence: uint32, dirty: bool)

  datatype CartridgeTrack = CartridgeTrack(fileNum: uint32, metadata: TrackMetadata)
  /** Metadata with more tracks than this is refused when the cartridge is mounted. */
  type CartridgeTracks = ts: seq<CartridgeTrack> | |ts| <= MAX_TRACK_FILES
  datatype Metadata = Metadata(checksum: uint32, header: AlbumMetadata, tracks: CartridgeTracks)
  datatype Cartridge = Cartridge(mounted: bool, metadata: Option<Metadata>)

  datatype PlayEvent = PlayEvent(checksum: uint32, index: uint32, fileNum: uint32)

  // ----- Finding slots -----

  /** The first slot that satisfies `p`. */
  function First<T>(slots: seq<Option<T>>, p: Option<T> -> bool): (slot: Option<nat>)
    ensures slot.Some? ==> slot.value < |slots| && p(slots[slot.value]) &&
                           forall i :: 0 <= i < slot.value ==> !p(slots[i])
    ensures slot.None? ==> forall i :: 0 <= i < |slots| ==> !p(slots[i])
  {
    if slots == [] then None
    else
      var last := |slots| - 1;
      var found := First(slots[..last], p);
      if found.Some? then found else if p(slots[last]) then Some(last) else None
  }

  function IsFree<T>(): Option<T> -> bool { (slot: Option<T>) => slot.None? }

  function IsAlbum(checksum: uint32): Option<Album> -> bool {
    (slot: Option<Album>) => slot.Some? && slot.value.checksum == checksum
  }

  function IsTrack(checksum: uint32, index: nat): Option<Track> -> bool {
    (slot: Option<Track>) => slot.Some? && slot.value.checksum == checksum && slot.value.index == index
  }

  function FindAlbum(albums: seq<Option<Album>>, checksum: uint32): Option<nat> {
    First(albums, IsAlbum(checksum))
  }

  function FindTrack(tracks: seq<Option<Track>>, checksum: uint32, index: nat): Option<nat> {
    First(tracks, IsTrack(checksum, index))
  }

  predicate Prunable(slot: Option<Album>, preserve: Option<uint32>) {
    slot.Some? && preserve != Some(slot.value.checksum)
  }

  /** The album first seen longest ago, other than the one to preserve. Albums first seen at
      the largest sequence number are never found. */
  function Oldest(albums: seq<Option<Album>>, preserve: Option<uint32>): (slot: Option<nat>)
    ensures slot.Some? ==> slot.value < |albums| && Prunable(albums[slot.value], preserve) &&
                           albums[slot.value].value.firstSeen < UINT32_MAX
    ensures slot.Some? ==> forall i :: 0 <= i < |albums| && Prunable(albums[i], preserve) ==>
                             albums[slot.value].value.firstSeen <= albums[i].value.firstSeen
    ensures slot.None? <==> forall i :: 0 <= i < |albums| && Prunable(albums[i], preserve) ==>
                              albums[i].value.firstSeen == UINT32_MAX
  {
    if albums == [] then None
    else
      var last := |albums| - 1;
      var before := Oldest(albums[..last], preserve);
      var limit := if before.Some? then albums[before.value].value.firstSeen else UINT32_MAX;
      if Prunable(albums[last], preserve) && albums[last].value.firstSeen < limit
      then Some(last) else before
  }

  ghost function Used<T>(slots: seq<Option<T>>): set<nat> {
    set i: nat | i < |slots| && slots[i].Some?
  }

  // ----- Pruning -----

  ghost function WithoutAlbum(tracks: seq<Option<Track>>, checksum: uint32): (left: seq<Option<Track>>)
    ensures |left| == |tracks|
    ensures forall i :: 0 <= i < |left| ==>
              left[i] == if tracks[i].Some? && tracks[i].value.checksum == checksum then None else tracks[i]
  {
    seq(|tracks|, i requires 0 <= i < |tracks| =>
          if tracks[i].Some? && tracks[i].value.checksum == checksum then None else tracks[i])
  }

  ghost function RemoveAlbum(c: Cache, slot: nat): Cache
    requires slot < |c.albums| && c.albums[slot].Some?
  {
    c.(albums := c.albums[slot := None], tracks := WithoutAlbum(c.tracks, c.albums[slot].value.checksum))
  }

  /** How many of the tracks from `from` up to `to` have no record yet. */
  ghost function Missing(tracks: seq<Option<Track>>, checksum: uint32, from: nat, to: nat): nat {
    if from >= to then 0
    else Missing(tracks, checksum, from, to - 1) + if FindTrack(tracks, checksum, to - 1).None? then 1 else 0
  }

  ghost predicate Fits(c: Cache, albumDelta: nat, trackDelta: nat) {
    |Used(c.albums)| + albumDelta <= MAX_ALBUMS && |Used(c.tracks)| + trackDelta <= MAX_TRACKS
  }

  ghost function EnsureCapacity(c: Cache, preserve: uint32, albumDelta: nat, trackDelta: nat): (Err, Cache)
    decreases |Used(c.albums)|
  {
    if Fits(c, albumDelta, trackDelta) then (OK, c)
    else
      var oldest := Oldest(c.albums, Some(preserve));
      var prune := if oldest.Some? then oldest else Oldest(c.albums, None);
      if prune.None? then (NO_MEM, c)
      else
        UsedWithout(c.albums, prune.value);
        EnsureCapacity(RemoveAlbum(c, prune.value), preserve, albumDelta, trackDelta)
  }

  lemma UsedWithout<T>(slots: seq<Option<T>>, slot: nat)
    requires slot < |slots| && slots[slot].Some?
    ensures |Used(slots[slot := None])| == |Used(slots)| - 1
  {
    assert Used(slots[slot := None]) == Used(slots) - {slot};
  }

  lemma UsedWith<T>(slots: seq<Option<T>>, slot: nat, value: T)
    requires slot < |slots|
    ensures |Used(slots[slot := Some(value)])| == |Used(slots)| + if slots[slot].None? then 1 else 0
  {
    assert Used(slots[slot := Some(value)]) == Used(slots) + {slot};
  }

  // ----- Sequence numbers -----

  /** The number handed out, and the next one; zero is never handed out. */
  function TakeSequence(next: uint32): (uint32, uint32) {
    var taken: uint32 := if next == 0 then 1 else next;
    (taken, if taken == UINT32_MAX then 1 else taken + 1)
  }

  // ----- Syncing with the cartridge -----

  function TrackPlace(tracks: seq<Option<Track>>, checksum: uint32, index: nat): Option<nat> {
    var found := FindTrack(tracks, checksum, index);
    if found.Some? then found else First(tracks, IsFree())
  }

  ghost function SyncTrack(c: Cache, checksum: uint32, sequence: uint32, info: CartridgeTrack, index: nat): (Err, Cache)
    requires index < MAX_TRACK_FILES
  {
    var place := TrackPlace(c.tracks, checksum, index);
    if place.None? then (NO_MEM, c)
    else
      var known := c.tracks[place.value];
      var (first, next) := if known.Some? then (known.value.firstSeen, c.nextSequence)
                           else TakeSequence(c.nextSequence);
      var plays := if known.Some? then known.value.playCount else 0;
      var track := Track(checksum, index, info.fileNum, plays, first, sequence, info.metadata);
      (OK, c.(tracks := c.tracks[place.value := Some(track)], nextSequence := next))
  }

  /** Tracks from `from` on, in order, until one finds no slot. */
  ghost function SyncTracks(c: Cache, checksum: uint32, sequence: uint32, infos: CartridgeTracks, from: nat): (Err, Cache)
    requires from <= |infos|
    decreases |infos| - from
  {
    if from == |infos| then (OK, c)
    else
      var (err, next) := SyncTrack(c, checksum, sequence, infos[from], from);
      if err != OK then (err, next) else SyncTracks(next, checksum, sequence, infos, from + 1)
  }

  /** The slot the cartridge's album is recorded in, and the cache with the album there. */
  ghost function AlbumPlace(c: Cache, checksum: uint32, found: Option<nat>): (Option<nat>, Cache) {
    if found.Some? then (found, c)
    else
      var free := First(c.albums, IsFree());
      if free.None? then (None, c)
      else
        var (first, next) := TakeSequence(c.nextSequence);
        (free, c.(albums := c.albums[free.value := Some(Album(checksum, 0, first, 0, NO_METADATA))],
                  nextSequence := next))
  }

  /** Writes to a slot that is not in use are never read. */
  ghost function TouchAlbum(c: Cache, slot: nat, m: Metadata, sequence: uint32): Cache {
    if slot < |c.albums| && c.albums[slot].Some?
    then c.(albums := c.albums[slot := Some(c.albums[slot].value.(
                                             trackCount := |m.tracks|, lastSeen := sequence, metadata := m.header))])
    else c
  }

  ghost function MakeRoom(c: Cache, m: Metadata): (Err, Cache) {
    EnsureCapacity(c, m.checksum, if FindAlbum(c.albums, m.checksum).None? then 1 else 0,
                   Missing(c.tracks, m.checksum, 0, |m.tracks|))
  }

  /** The album recorded in the slot found before pruning, or in a free one; and the
      sequence number of this sighting. */
  ghost function RecordAlbum(c: Cache, m: Metadata, found: Option<nat>): (Option<uint32>, Cache) {
    var (slot, placed) := AlbumPlace(c, m.checksum, found);
    if slot.None? then (None, placed)
    else
      var (sequence, next) := TakeSequence(placed.nextSequence);
      (Some(sequence), TouchAlbum(placed.(nextSequence := next), slot.value, m, sequence))
  }

  ghost function SyncMetadata(c: Cache, m: Metadata): (Err, Cache) {
    var (err, pruned) := MakeRoom(c, m);
    if err != OK then (err, pruned)
    else
      var (sequence, recorded) := RecordAlbum(pruned, m, FindAlbum(c.albums, m.checksum));
      if sequence.None? then (NO_MEM, recorded)
      else
        var (tracksErr, synced) := SyncTracks(recorded, m.checksum, sequence.value, m.tracks, 0);
        if tracksErr != OK then (tracksErr, synced) else (OK, synced.(dirty := true))
  }

  ghost function Sync(c: Cache, cart: Cartridge): (Err, Cache) {
    if !cart.mounted then (INVALID_STATE, c)
    else if cart.metadata.None? then (NOT_FOUND, c)
    else SyncMetadata(c, cart.metadata.value)
  }

  // ----- Counting a play -----

  /** A record the cartridge in the slot could supply is made first. */
  ghost function SyncForPlay(c: Cache, event: PlayEvent, cart: Cartridge): (Err, Cache) {
    if FindTrack(c.tracks, event.checksum, event.index).None? && cart.metadata.Some? &&
       cart.metadata.value.checksum == event.checksum
    then Sync(c, cart) else (OK, c)
  }

  ghost function CountPlay(c: Cache, event: PlayEvent, slot: nat): Cache
    requires slot < |c.tracks| && c.tracks[slot].Some?
  {
    var (sequence, next) := TakeSequence(c.nextSequence);
    var was := c.tracks[slot].value;
    var plays := (was.playCount + 1) % 0x1_0000_0000;
    var track := was.(playCount := plays, fileNum := event.fileNum, lastSeen := sequence);
    var album := FindAlbum(c.albums, event.checksum);
    c.(tracks := c.tracks[slot := Some(track)],
       albums := if album.None? then c.albums
                 else c.albums[album.value := Some(c.albums[album.value].value.(lastSeen := sequence))],
       nextSequence := next, dirty := true)
  }

  ghost function Play(c: Cache, event: PlayEvent, cart: Cartridge): (Err, Cache) {
    var (err, synced) := SyncForPlay(c, event, cart);
    if err != OK then (err, synced)
    else
      var slot := FindTrack(synced.tracks, event.checksum, event.index);
      if slot.None? then (NOT_FOUND, synced) else (OK, CountPlay(synced, event, slot.value))
  }

  // ----- Clearing -----

  ghost function Nones<T>(n: nat): seq<Option<T>> {
    seq(n, _ => None)
  }

  ghost function Reset(dirty: bool): Cache {
    Cache(Nones(MAX_ALBUMS), Nones(MAX_TRACKS), 1, dirty)
  }

  ghost function Rebuild(cart: Cartridge): (Err, Cache) {
    Sync(Reset(true), cart)
  }

  lemma NonesUnused<T>(n: nat)
    ensures Used(Nones<T>(n)) == {}
  {
  }
}
