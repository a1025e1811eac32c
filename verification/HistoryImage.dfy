/** The play history's file image: a header of four words, then the records in use. */
module HistoryImage {
  import opened Bytes
  import opened Esp
  import opened HistorySlots
  import opened HistoryLaws

  const STATE_VERSION: uint32 := 1
  const FILE_HEADER_BYTES: nat := 16
  const DISK_ALBUM_BYTES: nat := 16 + ALBUM_METADATA_BYTES
  const DISK_TRACK_BYTES: nat := 24 + TRACK_METADATA_BYTES
  const MAX_SERIALIZED_BYTES: nat :=
    FILE_HEADER_BYTES + MAX_ALBUMS * DISK_ALBUM_BYTES + MAX_TRACKS * DISK_TRACK_BYTES

  // ----- Records -----

  /** The records in use, in slot order. */
  function Records<T>(slots: seq<Option<T>>): (records: seq<T>)
    ensures |records| <= |slots|
  {
    if slots == [] then []
    else
      var last := |slots| - 1;
      Records(slots[..last]) + if slots[last].Some? then [slots[last].value] else []
  }

  /** Records in the lowest of `n` slots. */
  ghost function Packed<T>(n: nat, records: seq<T>): (slots: seq<Option<T>>)
    requires |records| <= n
    ensures |slots| == n
  {
    seq(n, i requires 0 <= i < n => if i < |records| then Some(records[i]) else None)
  }

  ghost function Repacked(c: Cache): Cache
    requires |c.albums| == MAX_ALBUMS && |c.tracks| == MAX_TRACKS
  {
    Cache(Packed(MAX_ALBUMS, Records(c.albums)), Packed(MAX_TRACKS, Records(c.tracks)),
          if c.nextSequence == 0 then 1 else c.nextSequence, c.nextSequence == 0)
  }

  // ----- Bytes -----

  function Header(next: uint32, albumCount: nat, trackCount: nat): (bytes: seq<byte>)
    requires albumCount <= MAX_ALBUMS && trackCount <= MAX_TRACKS
    ensures |bytes| == FILE_HEADER_BYTES
  {
    Le32(STATE_VERSION) + Le32(next) + Le32(albumCount) + Le32(trackCount)
  }

  function AlbumBytes(a: Album): (bytes: seq<byte>)
    ensures |bytes| == DISK_ALBUM_BYTES
  {
    Le32(a.checksum) + Le32(a.trackCount) + Le32(a.firstSeen) + Le32(a.lastSeen) + a.metadata
  }

  function TrackBytes(t: Track): (bytes: seq<byte>)
    ensures |bytes| == DISK_TRACK_BYTES
  {
    Le32(t.checksum) + Le32(t.index) + Le32(t.fileNum) + Le32(t.playCount) + Le32(t.firstSeen) + Le32(t.lastSeen) +
    t.metadata
  }

  function AlbumOfBytes(b: seq<byte>): Album
    requires |b| == DISK_ALBUM_BYTES
  {
    Album(FromLe32(b[..4]), FromLe32(b[4..8]), FromLe32(b[8..12]), FromLe32(b[12..16]), b[16..])
  }

  function TrackOfBytes(b: seq<byte>): Track
    requires |b| == DISK_TRACK_BYTES
  {
    Track(FromLe32(b[..4]), FromLe32(b[4..8]), FromLe32(b[8..12]), FromLe32(b[12..16]), FromLe32(b[16..20]),
          FromLe32(b[20..24]), b[24..])
  }

  /** Records one after the other. */
  function Encode<T>(records: seq<T>, encode: T -> seq<byte>): seq<byte> {
    if records == [] then [] else encode(records[0]) + Encode(records[1..], encode)
  }

  /** `n` records of `size` bytes each. */
  ghost function Decode<T>(b: seq<byte>, size: nat, n: nat, decode: seq<byte> --> T): (records: seq<T>)
    requires |b| == n * size && forall part :: |part| == size ==> decode.requires(part)
    ensures |records| == n
    decreases n
  {
    if n == 0 then []
    else
      Shorter(n, size);
      [decode(b[..size])] + Decode(b[size..], size, n - 1, decode)
  }

  lemma Shorter(n: nat, size: nat)
    requires n > 0
    ensures (n - 1) * size == n * size - size
  {
  }

  ghost function ImageOf(next: uint32, albums: seq<Album>, tracks: seq<Track>): seq<byte>
    requires |albums| <= MAX_ALBUMS && |tracks| <= MAX_TRACKS
  {
    Header(next, |albums|, |tracks|) + Encode(albums, AlbumBytes) + Encode(tracks, TrackBytes)
  }

  ghost function Image(c: Cache): seq<byte>
    requires |c.albums| == MAX_ALBUMS && |c.tracks| == MAX_TRACKS
  {
    ImageOf(c.nextSequence, Records(c.albums), Records(c.tracks))
  }

  // ----- Reading an image -----

  ghost function AlbumsIn(b: seq<byte>): (albums: seq<Album>)
    requires Accepted(b)
  {
    Decode(b[FILE_HEADER_BYTES..TracksStart(b)], DISK_ALBUM_BYTES, AlbumCount(b), AlbumOfBytes)
  }

  ghost function TracksIn(b: seq<byte>): (tracks: seq<Track>)
    requires Accepted(b)
  {
    Decode(b[TracksStart(b)..], DISK_TRACK_BYTES, TrackCount(b), TrackOfBytes)
  }

  /** Where the track records start. */
  function TracksStart(b: seq<byte>): nat
    requires |b| >= FILE_HEADER_BYTES
  {
    FILE_HEADER_BYTES + AlbumCount(b) * DISK_ALBUM_BYTES
  }

  function SerializedSize(albumCount: nat, trackCount: nat): nat {
    FILE_HEADER_BYTES + albumCount * DISK_ALBUM_BYTES + trackCount * DISK_TRACK_BYTES
  }

  /** The words of an image's header. */
  function Version(b: seq<byte>): uint32
    requires |b| >= FILE_HEADER_BYTES
  { FromLe32(b[..4]) }

  function NextSequence(b: seq<byte>): uint32
    requires |b| >= FILE_HEADER_BYTES
  { FromLe32(b[4..8]) }

  function AlbumCount(b: seq<byte>): uint32
    requires |b| >= FILE_HEADER_BYTES
  { FromLe32(b[8..12]) }

  function TrackCount(b: seq<byte>): uint32
    requires |b| >= FILE_HEADER_BYTES
  { FromLe32(b[12..16]) }

  /** The loader looks at version, counts and size only. */
  predicate Accepted(b: seq<byte>) {
    && |b| >= FILE_HEADER_BYTES && Version(b) == STATE_VERSION
    && AlbumCount(b) <= MAX_ALBUMS && TrackCount(b) <= MAX_TRACKS
    && |b| == SerializedSize(AlbumCount(b), TrackCount(b))
  }

  ghost function Load(b: seq<byte>): (Err, Cache) {
    if |b| < FILE_HEADER_BYTES then (FAIL, Reset(false))
    else if !Accepted(b) then (INVALID_RESPONSE, Reset(false))
    else
      var next := NextSequence(b);
      (OK, Cache(Packed(MAX_ALBUMS, AlbumsIn(b)), Packed(MAX_TRACKS, TracksIn(b)),
                 if next == 0 then 1 else next, next == 0))
  }

  // ----- Encoding and decoding one record -----

  lemma AlbumRoundTrip(a: Album)
    ensures AlbumOfBytes(AlbumBytes(a)) == a
  {
    var b := AlbumBytes(a);
    assert b[..4] == Le32(a.checksum) && b[4..8] == Le32(a.trackCount);
    assert b[8..12] == Le32(a.firstSeen) && b[12..16] == Le32(a.lastSeen) && b[16..] == a.metadata;
    Le32RoundTrip(a.checksum);
    Le32RoundTrip(a.trackCount);
    Le32RoundTrip(a.firstSeen);
    Le32RoundTrip(a.lastSeen);
  }

  lemma AlbumBytesInverse(b: seq<byte>)
    requires |b| == DISK_ALBUM_BYTES
    ensures AlbumBytes(AlbumOfBytes(b)) == b
  {
    Le32Inverse(b[..4]);
    Le32Inverse(b[4..8]);
    Le32Inverse(b[8..12]);
    Le32Inverse(b[12..16]);
    assert b == b[..4] + b[4..8] + b[8..12] + b[12..16] + b[16..];
  }

  lemma TrackRoundTrip(t: Track)
    ensures TrackOfBytes(TrackBytes(t)) == t
  {
    var b := TrackBytes(t);
    assert b[..4] == Le32(t.checksum) && b[4..8] == Le32(t.index) && b[8..12] == Le32(t.fileNum);
    assert b[12..16] == Le32(t.playCount) && b[16..20] == Le32(t.firstSeen) && b[20..24] == Le32(t.lastSeen);
    assert b[24..] == t.metadata;
    Le32RoundTrip(t.checksum);
    Le32RoundTrip(t.index);
    Le32RoundTrip(t.fileNum);
    Le32RoundTrip(t.playCount);
    Le32RoundTrip(t.firstSeen);
    Le32RoundTrip(t.lastSeen);
  }

  lemma TrackBytesInverse(b: seq<byte>)
    requires |b| == DISK_TRACK_BYTES
    ensures TrackBytes(TrackOfBytes(b)) == b
  {
    Le32Inverse(b[..4]);
    Le32Inverse(b[4..8]);
    Le32Inverse(b[8..12]);
    Le32Inverse(b[12..16]);
    Le32Inverse(b[16..20]);
    Le32Inverse(b[20..24]);
    assert b == b[..4] + b[4..8] + b[8..12] + b[12..16] + b[16..20] + b[20..24] + b[24..];
  }

  // ----- Encoding and decoding lists of records -----

  ghost predicate Encodes<T(!new)>(encode: T -> seq<byte>, decode: seq<byte> --> T, size: nat) {
    && (forall r :: |encode(r)| == size)
    && (forall part :: |part| == size ==> decode.requires(part) && encode(decode(part)) == part)
    && (forall r :: decode.requires(encode(r)) && decode(encode(r)) == r)
  }

  lemma {:induction false} EncodeSize<T(!new)>(records: seq<T>, encode: T -> seq<byte>, size: nat)
    requires forall r :: |encode(r)| == size
    ensures |Encode(records, encode)| == |records| * size
  {
    if records != [] {
      EncodeSize(records[1..], encode, size);
      Shorter(|records|, size);
    }
  }

  lemma {:induction false} DecodeEncode<T(!new)>(records: seq<T>, encode: T -> seq<byte>, decode: seq<byte> --> T, size: nat)
    requires Encodes(encode, decode, size)
    requires |Encode(records, encode)| == |records| * size
    ensures Decode(Encode(records, encode), size, |records|, decode) == records
  {
    if records != [] {
      var b := Encode(records, encode);
      var first, rest := encode(records[0]), Encode(records[1..], encode);
      EncodeSize(records[1..], encode, size);
      DecodeEncode(records[1..], encode, decode, size);
      assert b[..size] == first && b[size..] == rest;
      assert [records[0]] + records[1..] == records;
    }
  }

  lemma {:induction false} EncodeDecode<T(!new)>(b: seq<byte>, n: nat, encode: T -> seq<byte>, decode: seq<byte> --> T, size: nat)
    requires Encodes(encode, decode, size) && |b| == n * size
    ensures Encode(Decode(b, size, n, decode), encode) == b
  {
    if n > 0 {
      Shorter(n, size);
      EncodeDecode(b[size..], n - 1, encode, decode, size);
      var rest := Decode(b[size..], size, n - 1, decode);
      var records := Decode(b, size, n, decode);
      assert records[0] == decode(b[..size]) && records[1..] == rest;
      assert b == b[..size] + b[size..];
    }
  }

  lemma {:induction false} EncodeOne<T>(records: seq<T>, record: T, encode: T -> seq<byte>)
    ensures Encode(records + [record], encode) == Encode(records, encode) + encode(record)
  {
    if records == [] {
      assert [record][1..] == [] && records + [record] == [record];
    } else {
      assert (records + [record])[1..] == records[1..] + [record];
      EncodeOne(records[1..], record, encode);
    }
  }

  lemma AlbumsEncode()
    ensures Encodes(AlbumBytes, AlbumOfBytes, DISK_ALBUM_BYTES)
  {
    forall a: Album ensures AlbumOfBytes(AlbumBytes(a)) == a {
      AlbumRoundTrip(a);
    }
    forall part: seq<byte> | |part| == DISK_ALBUM_BYTES ensures AlbumBytes(AlbumOfBytes(part)) == part {
      AlbumBytesInverse(part);
    }
  }

  lemma TracksEncode()
    ensures Encodes(TrackBytes, TrackOfBytes, DISK_TRACK_BYTES)
  {
    forall t: Track ensures TrackOfBytes(TrackBytes(t)) == t {
      TrackRoundTrip(t);
    }
    forall part: seq<byte> | |part| == DISK_TRACK_BYTES ensures TrackBytes(TrackOfBytes(part)) == part {
      TrackBytesInverse(part);
    }
  }

  // ----- Whole images -----

  lemma HeaderWords(next: uint32, albumCount: nat, trackCount: nat, rest: seq<byte>)
    requires albumCount <= MAX_ALBUMS && trackCount <= MAX_TRACKS
    ensures var b := Header(next, albumCount, trackCount) + rest;
            Version(b) == STATE_VERSION && NextSequence(b) == next && AlbumCount(b) == albumCount &&
            TrackCount(b) == trackCount
  {
    var b := Header(next, albumCount, trackCount) + rest;
    assert b[..4] == Le32(STATE_VERSION) && b[4..8] == Le32(next);
    assert b[8..12] == Le32(albumCount) && b[12..16] == Le32(trackCount);
    Le32RoundTrip(STATE_VERSION);
    Le32RoundTrip(next);
    Le32RoundTrip(albumCount);
    Le32RoundTrip(trackCount);
  }

  lemma HeaderInverse(b: seq<byte>)
    requires |b| >= FILE_HEADER_BYTES && Version(b) == STATE_VERSION
    requires AlbumCount(b) <= MAX_ALBUMS && TrackCount(b) <= MAX_TRACKS
    ensures Header(NextSequence(b), AlbumCount(b), TrackCount(b)) == b[..FILE_HEADER_BYTES]
  {
    Le32Inverse(b[..4]);
    Le32Inverse(b[4..8]);
    Le32Inverse(b[8..12]);
    Le32Inverse(b[12..16]);
    assert b[..FILE_HEADER_BYTES] == b[..4] + b[4..8] + b[8..12] + b[12..16];
  }

  /** An acceptable image with these records. */
  ghost predicate Holds(b: seq<byte>, next: uint32, albums: seq<Album>, tracks: seq<Track>) {
    && Accepted(b) && NextSequence(b) == next && AlbumCount(b) == |albums| && TrackCount(b) == |tracks|
    && b[FILE_HEADER_BYTES..TracksStart(b)] == Encode(albums, AlbumBytes)
    && b[TracksStart(b)..] == Encode(tracks, TrackBytes)
  }

  lemma ImageParts(next: uint32, albums: seq<Album>, tracks: seq<Track>)
    requires |albums| <= MAX_ALBUMS && |tracks| <= MAX_TRACKS
    ensures Holds(ImageOf(next, albums, tracks), next, albums, tracks)
  {
    EncodeSize(albums, AlbumBytes, DISK_ALBUM_BYTES);
    EncodeSize(tracks, TrackBytes, DISK_TRACK_BYTES);
    var head, first, second := Header(next, |albums|, |tracks|), Encode(albums, AlbumBytes), Encode(tracks, TrackBytes);
    Assoc(head, first, second);
    HeaderWords(next, |albums|, |tracks|, first + second);
    PartsOf(head, first, second);
  }

  lemma PartsOf(head: seq<byte>, first: seq<byte>, second: seq<byte>)
    ensures var b := head + first + second;
            b[|head|..|head| + |first|] == first && b[|head| + |first|..] == second
  {
  }

  /** Loading an image gives back the same records, in order, in the lowest slots. */
  lemma ImageLoads(next: uint32, albums: seq<Album>, tracks: seq<Track>)
    requires |albums| <= MAX_ALBUMS && |tracks| <= MAX_TRACKS
    ensures Load(ImageOf(next, albums, tracks)) ==
            (OK, Cache(Packed(MAX_ALBUMS, albums), Packed(MAX_TRACKS, tracks), if next == 0 then 1 else next, next == 0))
  {
    ImageParts(next, albums, tracks);
    AlbumsEncode();
    TracksEncode();
    EncodeSize(albums, AlbumBytes, DISK_ALBUM_BYTES);
    EncodeSize(tracks, TrackBytes, DISK_TRACK_BYTES);
    DecodeEncode(albums, AlbumBytes, AlbumOfBytes, DISK_ALBUM_BYTES);
    DecodeEncode(tracks, TrackBytes, TrackOfBytes, DISK_TRACK_BYTES);
  }

  lemma CutInThree(b: seq<byte>, from: nat, to: nat)
    requires from <= to <= |b|
    ensures b == b[..from] + b[from..to] + b[to..]
  {
  }

  /** Any image the loader accepts is exactly the image of the records it reads. */
  lemma AcceptedIsImage(b: seq<byte>)
    requires Accepted(b)
    ensures b == ImageOf(NextSequence(b), AlbumsIn(b), TracksIn(b))
  {
    AlbumsEncode();
    TracksEncode();
    EncodeDecode(b[FILE_HEADER_BYTES..TracksStart(b)], AlbumCount(b), AlbumBytes, AlbumOfBytes, DISK_ALBUM_BYTES);
    EncodeDecode(b[TracksStart(b)..], TrackCount(b), TrackBytes, TrackOfBytes, DISK_TRACK_BYTES);
    HeaderInverse(b);
    CutInThree(b, FILE_HEADER_BYTES, TracksStart(b));
  }

  // ----- Repacking -----

  lemma {:induction false} RecordsOfPacked<T>(n: nat, records: seq<T>, k: nat)
    requires |records| <= n && k <= n
    ensures Records(Packed(n, records)[..k]) == if k < |records| then records[..k] else records
  {
    if k > 0 {
      RecordsOfPacked(n, records, k - 1);
      assert Packed(n, records)[..k][..k - 1] == Packed(n, records)[..k - 1];
      assert k <= |records| ==> records[..k] == records[..k - 1] + [records[k - 1]];
    }
  }

  /** A saved cache loads as its own records packed low, and saves again as the same bytes. */
  lemma SaveThenLoad(c: Cache)
    requires |c.albums| == MAX_ALBUMS && |c.tracks| == MAX_TRACKS
    ensures Load(Image(c)) == (OK, Repacked(c))
    ensures c.nextSequence != 0 ==> Image(Repacked(c)) == Image(c)
    ensures Records(Repacked(c).albums) == Records(c.albums) && Records(Repacked(c).tracks) == Records(c.tracks)
  {
    ImageLoads(c.nextSequence, Records(c.albums), Records(c.tracks));
    var d := Repacked(c);
    RecordsOfPacked(MAX_ALBUMS, Records(c.albums), MAX_ALBUMS);
    RecordsOfPacked(MAX_TRACKS, Records(c.tracks), MAX_TRACKS);
    assert d.albums[..MAX_ALBUMS] == d.albums && d.tracks[..MAX_TRACKS] == d.tracks;
  }

  lemma LoadedRecords(b: seq<byte>)
    requires Accepted(b)
    ensures var d := Load(b).1; Records(d.albums) == AlbumsIn(b) && Records(d.tracks) == TracksIn(b)
  {
    var d := Load(b).1;
    RecordsOfPacked(MAX_ALBUMS, AlbumsIn(b), MAX_ALBUMS);
    RecordsOfPacked(MAX_TRACKS, TracksIn(b), MAX_TRACKS);
    assert d.albums[..MAX_ALBUMS] == d.albums && d.tracks[..MAX_TRACKS] == d.tracks;
  }

  /** The next sequence number can be told from an image. */
  lemma ImagesDiffer(one: uint32, two: uint32, albums: seq<Album>, tracks: seq<Track>)
    requires |albums| <= MAX_ALBUMS && |tracks| <= MAX_TRACKS
    ensures ImageOf(one, albums, tracks) == ImageOf(two, albums, tracks) <==> one == two
  {
    ImageParts(one, albums, tracks);
    ImageParts(two, albums, tracks);
  }

  /** An image the loader accepts is saved again byte for byte if and only if its next
      sequence number is not the reserved zero. */
  lemma LoadThenSave(b: seq<byte>)
    requires Accepted(b)
    ensures Image(Load(b).1) == b <==> NextSequence(b) != 0
  {
    AcceptedIsImage(b);
    LoadedRecords(b);
    ImagesDiffer(Load(b).1.nextSequence, NextSequence(b), AlbumsIn(b), TracksIn(b));
  }

  // ----- The records are the same records -----

  lemma {:induction false} RecordIsUsed<T>(slots: seq<Option<T>>, k: nat) returns (slot: nat)
    requires k < |Records(slots)|
    ensures slot < |slots| && slots[slot] == Some(Records(slots)[k])
  {
    var last := |slots| - 1;
    if k < |Records(slots[..last])| {
      slot := RecordIsUsed(slots[..last], k);
    } else {
      slot := last;
    }
  }

  lemma {:induction false} UsedIsRecord<T>(slots: seq<Option<T>>, slot: nat) returns (k: nat)
    requires slot < |slots| && slots[slot].Some?
    ensures k < |Records(slots)| && Records(slots)[k] == slots[slot].value
  {
    var last := |slots| - 1;
    if slot < last {
      k := UsedIsRecord(slots[..last], slot);
    } else {
      k := |Records(slots)| - 1;
    }
  }

  lemma {:induction false} RecordsUnique<T, K>(slots: seq<Option<T>>, key: T -> K)
    requires forall i, j :: 0 <= i < j < |slots| && slots[i].Some? && slots[j].Some? ==>
               key(slots[i].value) != key(slots[j].value)
    ensures forall i, j :: 0 <= i < j < |Records(slots)| ==> key(Records(slots)[i]) != key(Records(slots)[j])
  {
    if slots != [] {
      var last := |slots| - 1;
      RecordsUnique(slots[..last], key);
      var before := Records(slots[..last]);
      forall i | 0 <= i < |before| && slots[last].Some? ensures key(before[i]) != key(slots[last].value) {
        var slot := RecordIsUsed(slots[..last], i);
        assert slots[slot] == Some(before[i]);
      }
    }
  }

  function AlbumKey(a: Album): uint32 { a.checksum }

  function TrackKey(t: Track): (uint32, uint32) { (t.checksum, t.index) }

  lemma RepackedAlbums(albums: seq<Option<Album>>, checksum: uint32)
    requires AlbumsOk(albums)
    ensures AlbumsOk(Packed(MAX_ALBUMS, Records(albums)))
    ensures AlbumOf(Packed(MAX_ALBUMS, Records(albums)), checksum) == AlbumOf(albums, checksum)
  {
    var records, packed := Records(albums), Packed(MAX_ALBUMS, Records(albums));
    RecordsUnique(albums, AlbumKey);
    forall i, j | 0 <= i < j < |packed| && packed[i].Some? && packed[j].Some?
      ensures packed[i].value.checksum != packed[j].value.checksum
    {
      assert AlbumKey(records[i]) != AlbumKey(records[j]);
    }
    forall i | 0 <= i < |records|
      ensures records[i].firstSeen < UINT32_MAX && AlbumOf(albums, records[i].checksum) == Some(records[i])
    {
      var slot := RecordIsUsed(albums, i);
      AlbumAt(albums, slot);
    }
    var found := FindAlbum(albums, checksum);
    if found.Some? {
      assert IsAlbum(checksum)(albums[found.value]);
      var k := UsedIsRecord(albums, found.value);
      AlbumAt(packed, k);
    } else {
      AlbumAbsent(packed, checksum);
    }
  }

  lemma RepackedTracks(tracks: seq<Option<Track>>, checksum: uint32, index: nat)
    requires TracksOk(tracks)
    ensures TracksOk(Packed(MAX_TRACKS, Records(tracks)))
    ensures RecordOf(Packed(MAX_TRACKS, Records(tracks)), checksum, index) == RecordOf(tracks, checksum, index)
  {
    var records, packed := Records(tracks), Packed(MAX_TRACKS, Records(tracks));
    RecordsUnique(tracks, TrackKey);
    forall i, j | 0 <= i < j < |packed| && packed[i].Some? && packed[j].Some?
      ensures packed[i].value.checksum != packed[j].value.checksum || packed[i].value.index != packed[j].value.index
    {
      assert TrackKey(records[i]) != TrackKey(records[j]);
    }
    forall i | 0 <= i < |records|
      ensures records[i].index < MAX_TRACK_FILES &&
              RecordOf(tracks, records[i].checksum, records[i].index) == Some(records[i])
    {
      var slot := RecordIsUsed(tracks, i);
      TrackAt(tracks, slot);
    }
    var found := FindTrack(tracks, checksum, index);
    if found.Some? {
      assert IsTrack(checksum, index)(tracks[found.value]);
      var k := UsedIsRecord(tracks, found.value);
      TrackAt(packed, k);
    } else {
      TrackAbsent(packed, checksum, index);
    }
  }

  /** Saving and loading keeps the invariant and every record. */
  lemma RepackedKeepsRecords(c: Cache)
    requires Inv(c)
    ensures Inv(Repacked(c))
    ensures forall checksum :: AlbumOf(Repacked(c).albums, checksum) == AlbumOf(c.albums, checksum)
    ensures forall checksum, i: nat :: RecordOf(Repacked(c).tracks, checksum, i) == RecordOf(c.tracks, checksum, i)
  {
    var d := Repacked(c);
    forall checksum ensures AlbumsOk(d.albums) && AlbumOf(d.albums, checksum) == AlbumOf(c.albums, checksum) {
      RepackedAlbums(c.albums, checksum);
    }
    forall checksum, i: nat
      ensures TracksOk(d.tracks) && RecordOf(d.tracks, checksum, i) == RecordOf(c.tracks, checksum, i)
    {
      RepackedTracks(c.tracks, checksum, i);
    }
    RepackedAlbums(c.albums, 0);
    RepackedTracks(c.tracks, 0, 0);
    forall i | 0 <= i < |d.tracks| && d.tracks[i].Some? ensures HasAlbum(d.albums, d.tracks[i].value.checksum) {
      var slot := RecordIsUsed(c.tracks, i);
      var checksum := d.tracks[i].value.checksum;
      assert c.tracks[slot].value.checksum == checksum && HasAlbum(c.albums, checksum);
      assert AlbumOf(d.albums, checksum) == AlbumOf(c.albums, checksum);
    }
  }

  // ----- Steps of the loops that save and load -----

  lemma {:induction false} RecordsSize<T>(slots: seq<Option<T>>)
    ensures |Records(slots)| == |Used(slots)|
  {
    if slots != [] {
      var last := |slots| - 1;
      RecordsSize(slots[..last]);
      assert Used(slots) == Used(slots[..last]) + if slots[last].Some? then {last} else {};
    }
  }

  lemma RecordsStep<T>(slots: seq<Option<T>>, i: nat)
    requires i < |slots|
    ensures Records(slots[..i + 1]) == Records(slots[..i]) + if slots[i].Some? then [slots[i].value] else []
  {
    assert slots[..i + 1][..i] == slots[..i];
  }

  lemma ImageSize(c: Cache)
    requires |c.albums| == MAX_ALBUMS && |c.tracks| == MAX_TRACKS
    ensures |Image(c)| == SerializedSize(|Records(c.albums)|, |Records(c.tracks)|) <= MAX_SERIALIZED_BYTES
  {
    ImageOfSize(c.nextSequence, Records(c.albums), Records(c.tracks));
  }

  lemma ImageOfSize(next: uint32, albums: seq<Album>, tracks: seq<Track>)
    requires |albums| <= MAX_ALBUMS && |tracks| <= MAX_TRACKS
    ensures |ImageOf(next, albums, tracks)| == SerializedSize(|albums|, |tracks|) <= MAX_SERIALIZED_BYTES
  {
    EncodeSize(albums, AlbumBytes, DISK_ALBUM_BYTES);
    EncodeSize(tracks, TrackBytes, DISK_TRACK_BYTES);
    LengthOfThree(Header(next, |albums|, |tracks|), Encode(albums, AlbumBytes), Encode(tracks, TrackBytes));
    LargestSize(|albums|, |tracks|);
  }

  lemma LengthOfThree(a: seq<byte>, b: seq<byte>, c: seq<byte>)
    ensures |a + b + c| == |a| + |b| + |c|
  {
  }

  lemma LargestSize(albumCount: nat, trackCount: nat)
    requires albumCount <= MAX_ALBUMS && trackCount <= MAX_TRACKS
    ensures SerializedSize(albumCount, trackCount) <= MAX_SERIALIZED_BYTES
  {
  }

  lemma NonesArePacked<T>(n: nat)
    ensures Nones<T>(n) == Packed(n, [])
  {
  }

  lemma PackedFree<T>(n: nat, records: seq<T>)
    requires |records| < n
    ensures First(Packed(n, records), IsFree()) == Some(|records|)
  {
    FirstIs(Packed(n, records), IsFree(), |records|);
  }

  lemma PackedOne<T>(n: nat, records: seq<T>, record: T)
    requires |records| < n
    ensures Packed(n, records)[|records| := Some(record)] == Packed(n, records + [record])
  {
  }

  /** `done` and what is left to decode between `cursor` and `end` make up `all`. */
  ghost predicate ToCome<T>(b: seq<byte>, cursor: nat, end: nat, size: nat, n: nat, decode: seq<byte> --> T,
                            done: seq<T>, all: seq<T>)
  {
    && cursor <= end <= |b| && end - cursor == n * size
    && (forall part :: |part| == size ==> decode.requires(part))
    && done + Decode(b[cursor..end], size, n, decode) == all
  }

  lemma AlbumsToCome(b: seq<byte>)
    requires Accepted(b)
    ensures ToCome(b, FILE_HEADER_BYTES, TracksStart(b), DISK_ALBUM_BYTES, AlbumCount(b), AlbumOfBytes, [], AlbumsIn(b))
  {
    assert [] + AlbumsIn(b) == AlbumsIn(b);
  }

  lemma TracksToCome(b: seq<byte>)
    requires Accepted(b)
    ensures ToCome(b, TracksStart(b), |b|, DISK_TRACK_BYTES, TrackCount(b), TrackOfBytes, [], TracksIn(b))
  {
    assert [] + TracksIn(b) == TracksIn(b) && b[TracksStart(b)..|b|] == b[TracksStart(b)..];
  }

  /** One record off the front of what is left to decode. */
  lemma DecodeOne<T>(b: seq<byte>, cursor: nat, end: nat, size: nat, n: nat, decode: seq<byte> --> T,
                     done: seq<T>, all: seq<T>)
    requires n > 0 && ToCome(b, cursor, end, size, n, decode, done, all)
    ensures cursor + size <= end <= |b| && decode.requires(b[cursor..cursor + size])
    ensures ToCome(b, cursor + size, end, size, n - 1, decode, done + [decode(b[cursor..cursor + size])], all)
  {
    var part := b[cursor..end];
    DecodeFront(part, size, n, decode);
    SliceOfSlice(b, cursor, end, 0, size);
    SliceOfSlice(b, cursor, end, size, |part|);
    assert part[0..size] == part[..size] && part[size..|part|] == part[size..];
    Assoc(done, [decode(part[..size])], Decode(part[size..], size, n - 1, decode));
  }

  lemma DecodeFront<T>(part: seq<byte>, size: nat, n: nat, decode: seq<byte> --> T)
    requires n > 0 && |part| == n * size && forall p :: |p| == size ==> decode.requires(p)
    ensures size <= |part| && |part| - size == (n - 1) * size
    ensures Decode(part, size, n, decode) == [decode(part[..size])] + Decode(part[size..], size, n - 1, decode)
  {
    Shorter(n, size);
    Times(n - 1, size);
  }

  lemma Times(n: nat, size: nat)
    ensures n * size >= 0
  {
  }

  lemma DecodedAll<T>(b: seq<byte>, cursor: nat, end: nat, size: nat, decode: seq<byte> --> T, done: seq<T>, all: seq<T>)
    requires ToCome(b, cursor, end, size, 0, decode, done, all)
    ensures done == all
  {
    assert done + [] == done;
  }
}
