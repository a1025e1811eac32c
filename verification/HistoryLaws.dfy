/** What the play history keeps: unique records that belong to a recorded album, room for
    whatever cartridge is inserted, and exact play counts. */
module HistoryLaws {
  import opened Bytes
  import opened Esp
  import opened HistorySlots

  // ----- The invariant -----

  ghost predicate AlbumsOk(albums: seq<Option<Album>>) {
    && |albums| == MAX_ALBUMS
    && (forall i, j :: 0 <= i < j < |albums| && albums[i].Some? && albums[j].Some? ==>
          albums[i].value.checksum != albums[j].value.checksum)
    && (forall i :: 0 <= i < |albums| && albums[i].Some? ==> albums[i].value.firstSeen < UINT32_MAX)
  }

  ghost predicate TracksOk(tracks: seq<Option<Track>>) {
    && |tracks| == MAX_TRACKS
    && (forall i, j :: 0 <= i < j < |tracks| && tracks[i].Some? && tracks[j].Some? ==>
          tracks[i].value.checksum != tracks[j].value.checksum || tracks[i].value.index != tracks[j].value.index)
    && (forall i :: 0 <= i < |tracks| && tracks[i].Some? ==> tracks[i].value.index < MAX_TRACK_FILES)
  }

  ghost predicate HasAlbum(albums: seq<Option<Album>>, checksum: uint32) {
    FindAlbum(albums, checksum).Some?
  }

  ghost predicate AlbumsPresent(c: Cache) {
    forall i :: 0 <= i < |c.tracks| && c.tracks[i].Some? ==> HasAlbum(c.albums, c.tracks[i].value.checksum)
  }

  ghost predicate Inv(c: Cache) {
    AlbumsOk(c.albums) && TracksOk(c.tracks) && AlbumsPresent(c)
  }

  /** The record of a track, wherever it is stored. */
  ghost function RecordOf(tracks: seq<Option<Track>>, checksum: uint32, index: nat): (record: Option<Track>)
    ensures record.None? <==> FindTrack(tracks, checksum, index).None?
    ensures record.Some? ==> record.value.checksum == checksum && record.value.index == index
  {
    var slot := FindTrack(tracks, checksum, index);
    if slot.None? then None else tracks[slot.value]
  }

  ghost function AlbumOf(albums: seq<Option<Album>>, checksum: uint32): (record: Option<Album>)
    ensures record.None? <==> FindAlbum(albums, checksum).None?
    ensures record.Some? ==> record.value.checksum == checksum
  {
    var slot := FindAlbum(albums, checksum);
    if slot.None? then None else albums[slot.value]
  }

  // ----- Slots and records -----

  lemma {:induction false} FirstIs<T>(slots: seq<Option<T>>, p: Option<T> -> bool, i: nat)
    requires i < |slots| && p(slots[i]) && forall j :: 0 <= j < i ==> !p(slots[j])
    ensures First(slots, p) == Some(i)
  {
    var found := First(slots, p);
    assert found.Some?;
  }

  /** With unique keys a track's slot can be told from any slot that holds its key. */
  lemma TrackAt(tracks: seq<Option<Track>>, slot: nat)
    requires TracksOk(tracks) && slot < |tracks| && tracks[slot].Some?
    ensures var t := tracks[slot].value;
            FindTrack(tracks, t.checksum, t.index) == Some(slot) &&
            RecordOf(tracks, t.checksum, t.index) == tracks[slot]
  {
    FirstIs(tracks, IsTrack(tracks[slot].value.checksum, tracks[slot].value.index), slot);
  }

  lemma AlbumAt(albums: seq<Option<Album>>, slot: nat)
    requires AlbumsOk(albums) && slot < |albums| && albums[slot].Some?
    ensures FindAlbum(albums, albums[slot].value.checksum) == Some(slot)
    ensures AlbumOf(albums, albums[slot].value.checksum) == albums[slot]
  {
    FirstIs(albums, IsAlbum(albums[slot].value.checksum), slot);
  }

  lemma TrackAbsent(tracks: seq<Option<Track>>, checksum: uint32, index: nat)
    requires forall i :: 0 <= i < |tracks| && tracks[i].Some? ==>
               tracks[i].value.checksum != checksum || tracks[i].value.index != index
    ensures RecordOf(tracks, checksum, index) == None
  {
  }

  lemma AlbumAbsent(albums: seq<Option<Album>>, checksum: uint32)
    requires forall i :: 0 <= i < |albums| && albums[i].Some? ==> albums[i].value.checksum != checksum
    ensures FindAlbum(albums, checksum) == None
  {
  }

  lemma AlbumFound(albums: seq<Option<Album>>, checksum: uint32, slot: nat)
    requires slot < |albums| && albums[slot].Some? && albums[slot].value.checksum == checksum
    ensures HasAlbum(albums, checksum)
  {
    assert IsAlbum(checksum)(albums[slot]);
  }

  /** `slot` may take track `t`: it is free and the track is new, or it holds that track. */
  ghost predicate MayHold(tracks: seq<Option<Track>>, slot: nat, t: Track) {
    && slot < |tracks| && t.index < MAX_TRACK_FILES
    && (if tracks[slot].Some? then tracks[slot].value.checksum == t.checksum && tracks[slot].value.index == t.index
        else RecordOf(tracks, t.checksum, t.index) == None)
  }

  lemma PutTrack(tracks: seq<Option<Track>>, slot: nat, t: Track)
    requires TracksOk(tracks) && MayHold(tracks, slot, t)
    ensures TracksOk(tracks[slot := Some(t)])
    ensures RecordOf(tracks[slot := Some(t)], t.checksum, t.index) == Some(t)
  {
    var after := tracks[slot := Some(t)];
    forall i, j | 0 <= i < j < |after| && after[i].Some? && after[j].Some?
      ensures after[i].value.checksum != after[j].value.checksum || after[i].value.index != after[j].value.index
    {
      var other := if i == slot then j else i;
      if (i == slot || j == slot) && tracks[slot].None? {
        assert !IsTrack(t.checksum, t.index)(tracks[other]);
      }
    }
    TrackAt(after, slot);
  }

  lemma PutTrackKeepsOthers(tracks: seq<Option<Track>>, slot: nat, t: Track, checksum: uint32, index: nat)
    requires TracksOk(tracks) && MayHold(tracks, slot, t)
    requires checksum != t.checksum || index != t.index
    ensures RecordOf(tracks[slot := Some(t)], checksum, index) == RecordOf(tracks, checksum, index)
  {
    var after := tracks[slot := Some(t)];
    PutTrack(tracks, slot, t);
    var found := FindTrack(tracks, checksum, index);
    if found.Some? {
      assert after[found.value] == tracks[found.value];
      TrackAt(after, found.value);
    } else {
      forall i | 0 <= i < |after| && after[i].Some?
        ensures after[i].value.checksum != checksum || after[i].value.index != index
      {
        assert i != slot ==> !IsTrack(checksum, index)(tracks[i]);
      }
      TrackAbsent(after, checksum, index);
    }
  }

  ghost predicate MayHoldAlbum(albums: seq<Option<Album>>, slot: nat, a: Album) {
    && slot < |albums| && a.firstSeen < UINT32_MAX
    && (if albums[slot].Some? then albums[slot].value.checksum == a.checksum else FindAlbum(albums, a.checksum) == None)
  }

  lemma PutAlbum(albums: seq<Option<Album>>, slot: nat, a: Album)
    requires AlbumsOk(albums) && MayHoldAlbum(albums, slot, a)
    ensures AlbumsOk(albums[slot := Some(a)])
    ensures AlbumOf(albums[slot := Some(a)], a.checksum) == Some(a)
    ensures FindAlbum(albums[slot := Some(a)], a.checksum) == Some(slot)
  {
    var after := albums[slot := Some(a)];
    forall i, j | 0 <= i < j < |after| && after[i].Some? && after[j].Some?
      ensures after[i].value.checksum != after[j].value.checksum
    {
      var other := if i == slot then j else i;
      if (i == slot || j == slot) && albums[slot].None? {
        assert !IsAlbum(a.checksum)(albums[other]);
      }
    }
    AlbumAt(after, slot);
  }

  lemma PutAlbumKeepsOthers(albums: seq<Option<Album>>, slot: nat, a: Album, checksum: uint32)
    requires AlbumsOk(albums) && MayHoldAlbum(albums, slot, a) && checksum != a.checksum
    ensures AlbumOf(albums[slot := Some(a)], checksum) == AlbumOf(albums, checksum)
  {
    var after := albums[slot := Some(a)];
    PutAlbum(albums, slot, a);
    var found := FindAlbum(albums, checksum);
    if found.Some? {
      assert after[found.value] == albums[found.value];
      AlbumAt(after, found.value);
    } else {
      forall i | 0 <= i < |after| && after[i].Some? ensures after[i].value.checksum != checksum {
        assert i != slot ==> !IsAlbum(checksum)(albums[i]);
      }
      AlbumAbsent(after, checksum);
    }
  }

  lemma PutAlbumKeepsPresent(c: Cache, slot: nat, a: Album)
    requires Inv(c) && MayHoldAlbum(c.albums, slot, a)
    ensures Inv(c.(albums := c.albums[slot := Some(a)]))
  {
    var after := c.albums[slot := Some(a)];
    PutAlbum(c.albums, slot, a);
    forall i | 0 <= i < |c.tracks| && c.tracks[i].Some? ensures HasAlbum(after, c.tracks[i].value.checksum) {
      var checksum := c.tracks[i].value.checksum;
      assert HasAlbum(c.albums, checksum);
      if checksum != a.checksum {
        PutAlbumKeepsOthers(c.albums, slot, a, checksum);
      }
    }
  }

  // ----- Removing an album -----

  lemma RemoveKeepsInv(c: Cache, slot: nat)
    requires Inv(c) && slot < |c.albums| && c.albums[slot].Some?
    ensures Inv(RemoveAlbum(c, slot))
  {
    var removed := c.albums[slot].value.checksum;
    var d := RemoveAlbum(c, slot);
    forall i | 0 <= i < |d.tracks| && d.tracks[i].Some? ensures HasAlbum(d.albums, d.tracks[i].value.checksum) {
      assert d.tracks[i] == c.tracks[i];
      var checksum := c.tracks[i].value.checksum;
      assert HasAlbum(c.albums, checksum);
      var at := FindAlbum(c.albums, checksum).value;
      assert IsAlbum(checksum)(c.albums[at]);
      assert d.albums[at] == c.albums[at];
      AlbumFound(d.albums, checksum, at);
    }
  }

  /** Removing an album takes its own tracks and leaves every other record. */
  lemma RemoveKeepsOthers(c: Cache, slot: nat, checksum: uint32, index: nat)
    requires Inv(c) && slot < |c.albums| && c.albums[slot].Some?
    ensures var removed := c.albums[slot].value.checksum;
            RecordOf(RemoveAlbum(c, slot).tracks, checksum, index) ==
            if checksum == removed then None else RecordOf(c.tracks, checksum, index)
  {
    RemoveKeepsInv(c, slot);
    var removed := c.albums[slot].value.checksum;
    var left := RemoveAlbum(c, slot).tracks;
    var found := FindTrack(c.tracks, checksum, index);
    if checksum != removed && found.Some? {
      assert left[found.value] == c.tracks[found.value];
      TrackAt(left, found.value);
    } else {
      forall i | 0 <= i < |left| && left[i].Some?
        ensures left[i].value.checksum != checksum || left[i].value.index != index
      {
        assert found.None? ==> !IsTrack(checksum, index)(c.tracks[i]);
      }
      TrackAbsent(left, checksum, index);
    }
  }

  lemma RemoveKeepsAlbums(c: Cache, slot: nat, checksum: uint32)
    requires Inv(c) && slot < |c.albums| && c.albums[slot].Some?
    ensures var removed := c.albums[slot].value.checksum;
            FindAlbum(RemoveAlbum(c, slot).albums, checksum) ==
            if checksum == removed then None else FindAlbum(c.albums, checksum)
  {
    RemoveKeepsInv(c, slot);
    var removed := c.albums[slot].value.checksum;
    var left := RemoveAlbum(c, slot).albums;
    var found := FindAlbum(c.albums, checksum);
    if checksum != removed && found.Some? {
      assert left[found.value] == c.albums[found.value];
      AlbumAt(left, found.value);
    } else {
      forall i | 0 <= i < |left| && left[i].Some? ensures left[i].value.checksum != checksum {
        assert found.None? ==> !IsAlbum(checksum)(c.albums[i]);
      }
      AlbumAbsent(left, checksum);
    }
  }

  // ----- There is always room: the pigeonhole -----

  ghost function Below(n: nat): (below: set<nat>)
    ensures |below| == n && forall i: nat :: i in below <==> i < n
  {
    if n == 0 then {} else Below(n - 1) + {n - 1}
  }

  lemma SubsetSize(a: set<nat>, b: set<nat>)
    requires a <= b
    ensures |a| <= |b|
  {
    assert b == a + (b - a);
  }

  ghost function MissingSet(tracks: seq<Option<Track>>, checksum: uint32, n: nat): set<nat> {
    set i: nat | i < n && FindTrack(tracks, checksum, i).None?
  }

  lemma {:induction false} MissingSize(tracks: seq<Option<Track>>, checksum: uint32, n: nat)
    ensures Missing(tracks, checksum, 0, n) == |MissingSet(tracks, checksum, n)|
  {
    if n == 0 {
      assert MissingSet(tracks, checksum, n) == {};
    } else {
      MissingSize(tracks, checksum, n - 1);
      var last := n - 1;
      assert MissingSet(tracks, checksum, n) ==
             MissingSet(tracks, checksum, last) + if FindTrack(tracks, checksum, last).None? then {last} else {};
    }
  }

  ghost function Indices(tracks: seq<Option<Track>>, slots: set<nat>): set<nat>
    requires slots <= Used(tracks)
  {
    set s: nat | s in slots :: tracks[s].value.index as nat
  }

  lemma {:induction false} IndicesSize(tracks: seq<Option<Track>>, slots: set<nat>)
    requires slots <= Used(tracks)
    requires forall a, b :: a in slots && b in slots && a != b ==> tracks[a].value.index != tracks[b].value.index
    ensures |Indices(tracks, slots)| == |slots|
  {
    if slots != {} {
      var s :| s in slots;
      IndicesSize(tracks, slots - {s});
      var index: nat := tracks[s].value.index;
      assert Indices(tracks, slots) == Indices(tracks, slots - {s}) + {index};
      assert index !in Indices(tracks, slots - {s});
    }
  }

  /** When every recorded track belongs to one album, its records and the cartridge tracks
      that have none together number fewer than a thousand. */
  lemma OneAlbumFits(tracks: seq<Option<Track>>, checksum: uint32, n: nat)
    requires TracksOk(tracks) && n <= MAX_TRACK_FILES
    requires forall i :: 0 <= i < |tracks| && tracks[i].Some? ==> tracks[i].value.checksum == checksum
    ensures |Used(tracks)| + Missing(tracks, checksum, 0, n) <= MAX_TRACK_FILES
  {
    var used, missing := Indices(tracks, Used(tracks)), MissingSet(tracks, checksum, n);
    IndicesSize(tracks, Used(tracks));
    MissingSize(tracks, checksum, n);
    forall i | i in used ensures i !in missing {
      var s :| s in Used(tracks) && tracks[s].value.index as nat == i;
      TrackAt(tracks, s);
    }
    assert |used + missing| == |used| + |missing|;
    SubsetSize(used + missing, Below(MAX_TRACK_FILES));
  }

  lemma UsedAtMostOne(albums: seq<Option<Album>>, checksum: uint32)
    requires AlbumsOk(albums)
    requires forall i :: 0 <= i < |albums| && albums[i].Some? ==> albums[i].value.checksum == checksum
    ensures |Used(albums)| == if HasAlbum(albums, checksum) then 1 else 0
  {
    var found := FindAlbum(albums, checksum);
    if found.Some? {
      assert IsAlbum(checksum)(albums[found.value]);
      assert Used(albums) == {found.value};
    } else {
      forall i | 0 <= i < |albums| ensures albums[i].None? {
        assert !IsAlbum(checksum)(albums[i]);
      }
      assert Used(albums) == {};
    }
  }

  /** What syncing asks for: the cartridge's own needs. */
  ghost predicate Asks(c: Cache, checksum: uint32, n: nat, albumDelta: nat, trackDelta: nat) {
    && n <= MAX_TRACK_FILES
    && albumDelta == (if HasAlbum(c.albums, checksum) then 0 else 1)
    && trackDelta == Missing(c.tracks, checksum, 0, n)
  }

  /** While there is not enough room, some other album can be pruned. */
  lemma CrowdedHasAnother(c: Cache, checksum: uint32, n: nat, albumDelta: nat, trackDelta: nat)
    requires Inv(c) && Asks(c, checksum, n, albumDelta, trackDelta) && !Fits(c, albumDelta, trackDelta)
    ensures Oldest(c.albums, Some(checksum)).Some?
  {
    if Oldest(c.albums, Some(checksum)).None? {
      forall i | 0 <= i < |c.albums| && c.albums[i].Some? ensures c.albums[i].value.checksum == checksum {
        assert !Prunable(c.albums[i], Some(checksum));
      }
      UsedAtMostOne(c.albums, checksum);
      forall i | 0 <= i < |c.tracks| && c.tracks[i].Some? ensures c.tracks[i].value.checksum == checksum {
        assert HasAlbum(c.albums, c.tracks[i].value.checksum);
        var at := FindAlbum(c.albums, c.tracks[i].value.checksum).value;
        assert IsAlbum(c.tracks[i].value.checksum)(c.albums[at]);
      }
      OneAlbumFits(c.tracks, checksum, n);
    }
  }

  lemma {:induction false} MissingSame(before: seq<Option<Track>>, after: seq<Option<Track>>, checksum: uint32, from: nat, to: nat)
    requires forall i :: from <= i < to ==> (RecordOf(before, checksum, i).None? <==> RecordOf(after, checksum, i).None?)
    ensures Missing(before, checksum, from, to) == Missing(after, checksum, from, to)
  {
    if from < to {
      MissingSame(before, after, checksum, from, to - 1);
      assert RecordOf(before, checksum, to - 1).None? <==> RecordOf(after, checksum, to - 1).None?;
    }
  }

  /** `d` is `c` with some albums other than `checksum` pruned, each with its tracks. */
  ghost predicate PrunedFrom(c: Cache, d: Cache, checksum: uint32) {
    && |d.albums| == |c.albums| && |d.tracks| == |c.tracks|
    && d.nextSequence == c.nextSequence && d.dirty == c.dirty
    && (forall i :: 0 <= i < |c.albums| ==>
          d.albums[i] == c.albums[i] || (d.albums[i].None? && c.albums[i].value.checksum != checksum))
    && (forall i :: 0 <= i < |c.tracks| ==>
          d.tracks[i] == c.tracks[i] || (d.tracks[i].None? && !HasAlbum(d.albums, c.tracks[i].value.checksum)))
  }

  /** The albums that went were first seen no later than any other album that stayed. */
  ghost predicate OldestWent(c: Cache, d: Cache, checksum: uint32)
    requires |d.albums| == |c.albums|
  {
    forall i, j :: 0 <= i < |c.albums| && 0 <= j < |c.albums| && c.albums[i].Some? && d.albums[i].None? &&
                   d.albums[j].Some? && c.albums[j].Some? && c.albums[j].value.checksum != checksum ==>
      c.albums[i].value.firstSeen <= c.albums[j].value.firstSeen
  }

  lemma PrunedOne(c: Cache, slot: nat, checksum: uint32)
    requires Inv(c) && Oldest(c.albums, Some(checksum)) == Some(slot)
    ensures PrunedFrom(c, RemoveAlbum(c, slot), checksum)
    ensures OldestWent(c, RemoveAlbum(c, slot), checksum)
  {
    RemoveKeepsAlbums(c, slot, c.albums[slot].value.checksum);
    var d := RemoveAlbum(c, slot);
    forall i, j | 0 <= i < |c.albums| && 0 <= j < |c.albums| && c.albums[i].Some? && d.albums[i].None? &&
                  d.albums[j].Some? && c.albums[j].Some? && c.albums[j].value.checksum != checksum
      ensures c.albums[i].value.firstSeen <= c.albums[j].value.firstSeen
    {
      assert i == slot && Prunable(c.albums[j], Some(checksum));
    }
  }

  lemma PrunedTwice(c: Cache, d: Cache, e: Cache, checksum: uint32)
    requires Inv(c) && Inv(d) && Inv(e) && PrunedFrom(c, d, checksum) && PrunedFrom(d, e, checksum)
    requires OldestWent(c, d, checksum) && OldestWent(d, e, checksum)
    ensures PrunedFrom(c, e, checksum) && OldestWent(c, e, checksum)
  {
    forall i | 0 <= i < |c.tracks|
      ensures e.tracks[i] == c.tracks[i] || (e.tracks[i].None? && !HasAlbum(e.albums, c.tracks[i].value.checksum))
    {
      if d.tracks[i] != c.tracks[i] {
        var cs := c.tracks[i].value.checksum;
        forall k | 0 <= k < |e.albums| && e.albums[k].Some? ensures e.albums[k].value.checksum != cs {
          assert !IsAlbum(cs)(d.albums[k]) && e.albums[k] == d.albums[k];
        }
        AlbumAbsent(e.albums, cs);
      }
    }
    forall i, j | 0 <= i < |c.albums| && 0 <= j < |c.albums| && c.albums[i].Some? && e.albums[i].None? &&
                  e.albums[j].Some? && c.albums[j].Some? && c.albums[j].value.checksum != checksum
      ensures c.albums[i].value.firstSeen <= c.albums[j].value.firstSeen
    {
      assert d.albums[j] == c.albums[j] && e.albums[j] == d.albums[j];
      assert d.albums[i] == c.albums[i] || d.albums[i].None?;
    }
  }

  /** Making room for a cartridge always succeeds and never touches the cartridge's own
      album: only other albums go, oldest first, each with all its tracks. */
  lemma {:induction false} CapacityAlwaysSucceeds(c: Cache, checksum: uint32, n: nat, albumDelta: nat, trackDelta: nat)
    requires Inv(c) && Asks(c, checksum, n, albumDelta, trackDelta)
    ensures var (err, d) := EnsureCapacity(c, checksum, albumDelta, trackDelta);
            err == OK && Inv(d) && Fits(d, albumDelta, trackDelta) && PrunedFrom(c, d, checksum) &&
            OldestWent(c, d, checksum) && FindAlbum(d.albums, checksum) == FindAlbum(c.albums, checksum)
    decreases |Used(c.albums)|
  {
    if !Fits(c, albumDelta, trackDelta) {
      CrowdedHasAnother(c, checksum, n, albumDelta, trackDelta);
      var slot := Oldest(c.albums, Some(checksum)).value;
      var d := RemoveAlbum(c, slot);
      UsedWithout(c.albums, slot);
      RemoveKeepsInv(c, slot);
      RemoveKeepsAlbums(c, slot, checksum);
      forall i | 0 <= i < n ensures RecordOf(c.tracks, checksum, i) == RecordOf(d.tracks, checksum, i) {
        RemoveKeepsOthers(c, slot, checksum, i);
      }
      MissingSame(c.tracks, d.tracks, checksum, 0, n);
      CapacityAlwaysSucceeds(d, checksum, n, albumDelta, trackDelta);
      PrunedOne(c, slot, checksum);
      PrunedTwice(c, d, EnsureCapacity(d, checksum, albumDelta, trackDelta).1, checksum);
    }
  }

  lemma {:induction false} CapacityOnlyRemoves(c: Cache, preserve: uint32, albumDelta: nat, trackDelta: nat)
    ensures |Used(EnsureCapacity(c, preserve, albumDelta, trackDelta).1.albums)| <= |Used(c.albums)|
    decreases |Used(c.albums)|
  {
    var oldest := Oldest(c.albums, Some(preserve));
    var prune := if oldest.Some? then oldest else Oldest(c.albums, None);
    if !Fits(c, albumDelta, trackDelta) && prune.Some? {
      UsedWithout(c.albums, prune.value);
      CapacityOnlyRemoves(RemoveAlbum(c, prune.value), preserve, albumDelta, trackDelta);
    }
  }

  /** What is left when everything that can be pruned is gone: the albums first seen at the
      largest sequence number, and the tracks of no pruned album. */
  ghost function Strip(c: Cache): (left: Cache)
    ensures |left.albums| == |c.albums| && |left.tracks| == |c.tracks|
  {
    c.(albums := seq(|c.albums|, i requires 0 <= i < |c.albums| =>
                       if c.albums[i].Some? && c.albums[i].value.firstSeen < UINT32_MAX then None else c.albums[i]),
       tracks := seq(|c.tracks|, i requires 0 <= i < |c.tracks| =>
                       if c.tracks[i].Some? && GoesWhenPruned(c.albums, c.tracks[i].value.checksum) then None
                       else c.tracks[i]))
  }

  /** Some album with this checksum can be pruned. */
  ghost predicate GoesWhenPruned(albums: seq<Option<Album>>, checksum: uint32) {
    exists i :: 0 <= i < |albums| && PrunableAs(albums[i], checksum)
  }

  ghost predicate PrunableAs(slot: Option<Album>, checksum: uint32) {
    slot.Some? && slot.value.checksum == checksum && slot.value.firstSeen < UINT32_MAX
  }

  lemma RemoveKeepsGoing(albums: seq<Option<Album>>, slot: nat, checksum: uint32)
    requires slot < |albums| && albums[slot].Some? && albums[slot].value.checksum != checksum
    ensures GoesWhenPruned(albums[slot := None], checksum) <==> GoesWhenPruned(albums, checksum)
  {
    var after := albums[slot := None];
    if i :| 0 <= i < |albums| && PrunableAs(albums[i], checksum) {
      assert PrunableAs(after[i], checksum);
    }
    if i :| 0 <= i < |after| && PrunableAs(after[i], checksum) {
      assert PrunableAs(albums[i], checksum);
    }
  }

  /** A step of pruning changes nothing of what is left in the end. */
  lemma StripAfterRemove(c: Cache, slot: nat)
    requires slot < |c.albums| && c.albums[slot].Some? && c.albums[slot].value.firstSeen < UINT32_MAX
    ensures Strip(RemoveAlbum(c, slot)) == Strip(c)
  {
    var d, removed := RemoveAlbum(c, slot), c.albums[slot].value.checksum;
    forall i | 0 <= i < |c.tracks| ensures Strip(d).tracks[i] == Strip(c).tracks[i] {
      if c.tracks[i].Some? {
        if c.tracks[i].value.checksum == removed {
          assert PrunableAs(c.albums[slot], removed);
        } else {
          RemoveKeepsGoing(c.albums, slot, c.tracks[i].value.checksum);
        }
      }
    }
    assert Strip(d).albums == Strip(c).albums && Strip(d).tracks == Strip(c).tracks;
  }

  lemma StripUsesLess(c: Cache)
    ensures |Used(Strip(c).albums)| <= |Used(c.albums)| && |Used(Strip(c).tracks)| <= |Used(c.tracks)|
  {
    SubsetSize(Used(Strip(c).albums), Used(c.albums));
    SubsetSize(Used(Strip(c).tracks), Used(c.tracks));
  }

  lemma StuckIsStripped(c: Cache)
    requires Oldest(c.albums, None).None?
    ensures Strip(c) == c
  {
    forall i | 0 <= i < |c.albums| && c.albums[i].Some? ensures c.albums[i].value.firstSeen == UINT32_MAX {
      assert Prunable(c.albums[i], None);
    }
    forall cs ensures !GoesWhenPruned(c.albums, cs) {
    }
    assert Strip(c).albums == c.albums && Strip(c).tracks == c.tracks;
  }

  /** With any cache at all, making room succeeds if and only if there is room once every
      album first seen below the largest sequence number is gone with its tracks. */
  lemma {:induction false} CapacitySucceedsIff(c: Cache, preserve: uint32, albumDelta: nat, trackDelta: nat)
    ensures EnsureCapacity(c, preserve, albumDelta, trackDelta).0 == OK <==> Fits(Strip(c), albumDelta, trackDelta)
    decreases |Used(c.albums)|
  {
    StripUsesLess(c);
    if !Fits(c, albumDelta, trackDelta) {
      var oldest := Oldest(c.albums, Some(preserve));
      var prune := if oldest.Some? then oldest else Oldest(c.albums, None);
      if prune.Some? {
        UsedWithout(c.albums, prune.value);
        StripAfterRemove(c, prune.value);
        CapacitySucceedsIff(RemoveAlbum(c, prune.value), preserve, albumDelta, trackDelta);
      } else {
        StuckIsStripped(c);
      }
    }
  }

  /** An album first seen early, and one first seen at the largest sequence number, which has
      two tracks. */
  ghost function LateAlbum(early: Album, late: Album, one: Track, two: Track): Cache {
    Cache([Some(early), Some(late)] + Nones(MAX_ALBUMS - 2), [Some(one), Some(two)] + Nones(MAX_TRACKS - 2), 1, false)
  }

  lemma {:induction false} AllMissing(tracks: seq<Option<Track>>, checksum: uint32, n: nat)
    requires forall i :: 0 <= i < |tracks| && tracks[i].Some? ==> tracks[i].value.checksum != checksum
    ensures Missing(tracks, checksum, 0, n) == n
  {
    if n > 0 {
      AllMissing(tracks, checksum, n - 1);
      TrackAbsent(tracks, checksum, n - 1);
    }
  }

  /** A new cartridge of 999 tracks finds no room beside it: the early album is pruned in
      vain, and the late one is never found. */
  lemma LateAlbumIsNeverPruned(early: Album, late: Album, one: Track, two: Track, m: Metadata)
    requires early.firstSeen < late.firstSeen == UINT32_MAX && early.checksum != late.checksum
    requires one.checksum == two.checksum == late.checksum
    requires m.checksum != early.checksum && m.checksum != late.checksum && |m.tracks| == MAX_TRACK_FILES
    ensures var c := LateAlbum(early, late, one, two);
            var (err, d) := SyncMetadata(c, m);
            err == NO_MEM && d != c
  {
    var c := LateAlbum(early, late, one, two);
    var left := Strip(c);
    assert c.albums[0] == Some(early) && c.albums[1] == Some(late);
    assert !GoesWhenPruned(c.albums, late.checksum);
    assert left.tracks[0] == Some(one) && left.tracks[1] == Some(two);
    assert {0, 1} <= Used(left.tracks) && {0, 1} <= Used(c.tracks);
    SubsetSize({0, 1}, Used(left.tracks));
    SubsetSize({0, 1}, Used(c.tracks));
    AlbumAbsent(c.albums, m.checksum);
    AllMissing(c.tracks, m.checksum, |m.tracks|);
    CapacitySucceedsIff(c, m.checksum, 1, MAX_TRACK_FILES);
    OnlyTwoOutcomes(c, m.checksum, 1, MAX_TRACK_FILES);
    StuckIffAllAtLastSequence(c, m.checksum, 1, MAX_TRACK_FILES);
  }

  lemma {:induction false} OnlyTwoOutcomes(c: Cache, preserve: uint32, albumDelta: nat, trackDelta: nat)
    ensures var err := EnsureCapacity(c, preserve, albumDelta, trackDelta).0;
            err == OK || err == NO_MEM
    decreases |Used(c.albums)|
  {
    var oldest := Oldest(c.albums, Some(preserve));
    var prune := if oldest.Some? then oldest else Oldest(c.albums, None);
    if !Fits(c, albumDelta, trackDelta) && prune.Some? {
      UsedWithout(c.albums, prune.value);
      OnlyTwoOutcomes(RemoveAlbum(c, prune.value), preserve, albumDelta, trackDelta);
    }
  }

  /** With any cache at all, nothing is pruned and there is no room exactly when there is none
      to begin with and every album was first seen at the largest number. */
  lemma StuckIffAllAtLastSequence(c: Cache, preserve: uint32, albumDelta: nat, trackDelta: nat)
    ensures EnsureCapacity(c, preserve, albumDelta, trackDelta) == (NO_MEM, c) <==>
            !Fits(c, albumDelta, trackDelta) &&
            forall i :: 0 <= i < |c.albums| && c.albums[i].Some? ==> c.albums[i].value.firstSeen == UINT32_MAX
  {
    var oldest := Oldest(c.albums, Some(preserve));
    var prune := if oldest.Some? then oldest else Oldest(c.albums, None);
    if !Fits(c, albumDelta, trackDelta) {
      if prune.Some? {
        UsedWithout(c.albums, prune.value);
        CapacityOnlyRemoves(RemoveAlbum(c, prune.value), preserve, albumDelta, trackDelta);
      } else {
        forall i | 0 <= i < |c.albums| && c.albums[i].Some? ensures c.albums[i].value.firstSeen == UINT32_MAX {
          assert Prunable(c.albums[i], None);
        }
      }
    }
  }

  // ----- Syncing -----

  /** There is a slot for each track from `from` on that has no record. */
  ghost predicate RoomFor(c: Cache, checksum: uint32, from: nat, to: nat) {
    |Used(c.tracks)| + Missing(c.tracks, checksum, from, to) <= MAX_TRACKS
  }

  lemma AllUsed<T>(slots: seq<Option<T>>)
    requires forall i :: 0 <= i < |slots| ==> slots[i].Some?
    ensures |Used(slots)| == |slots|
  {
    assert Used(slots) == Below(|slots|);
  }

  lemma FreeSlotExists<T>(slots: seq<Option<T>>)
    requires |Used(slots)| < |slots|
    ensures First(slots, IsFree()).Some?
  {
    if First(slots, IsFree()).None? {
      forall i | 0 <= i < |slots| ensures slots[i].Some? {
        assert !IsFree<T>()(slots[i]);
      }
      AllUsed(slots);
    }
  }

  lemma {:induction false} MissingFront(tracks: seq<Option<Track>>, checksum: uint32, from: nat, to: nat)
    requires from < to
    ensures Missing(tracks, checksum, from, to) ==
            (if RecordOf(tracks, checksum, from).None? then 1 else 0) + Missing(tracks, checksum, from + 1, to)
  {
    if from + 1 < to {
      MissingFront(tracks, checksum, from, to - 1);
    }
  }

  /** The record a track has after a sync: its plays and its first sighting are kept. */
  ghost predicate SyncedFrom(before: Option<Track>, after: Option<Track>, info: CartridgeTrack, sequence: uint32) {
    && after.Some? && after.value.fileNum == info.fileNum && after.value.metadata == info.metadata
    && after.value.lastSeen == sequence
    && (before.Some? ==> after.value.playCount == before.value.playCount && after.value.firstSeen == before.value.firstSeen)
    && (before.None? ==> after.value.playCount == 0)
  }

  lemma SyncTrackWorks(c: Cache, checksum: uint32, sequence: uint32, info: CartridgeTrack, index: nat)
    requires Inv(c) && HasAlbum(c.albums, checksum) && index < MAX_TRACK_FILES
    requires |Used(c.tracks)| + (if RecordOf(c.tracks, checksum, index).None? then 1 else 0) <= MAX_TRACKS
    ensures var (err, d) := SyncTrack(c, checksum, sequence, info, index);
            && err == OK && Inv(d) && d.albums == c.albums && d.dirty == c.dirty
            && SyncedFrom(RecordOf(c.tracks, checksum, index), RecordOf(d.tracks, checksum, index), info, sequence)
            && |Used(d.tracks)| == |Used(c.tracks)| + if RecordOf(c.tracks, checksum, index).None? then 1 else 0
    ensures var d := SyncTrack(c, checksum, sequence, info, index).1;
            forall cs, i: nat :: cs != checksum || i != index ==> RecordOf(d.tracks, cs, i) == RecordOf(c.tracks, cs, i)
  {
    var found := FindTrack(c.tracks, checksum, index);
    if found.None? {
      FreeSlotExists(c.tracks);
    }
    var slot := TrackPlace(c.tracks, checksum, index).value;
    var d := SyncTrack(c, checksum, sequence, info, index).1;
    var track := d.tracks[slot].value;
    UsedWith(c.tracks, slot, track);
    PutTrack(c.tracks, slot, track);
    forall cs, i: nat | cs != checksum || i != index
      ensures RecordOf(d.tracks, cs, i) == RecordOf(c.tracks, cs, i)
    {
      PutTrackKeepsOthers(c.tracks, slot, track, cs, i);
    }
  }

  /** The tracks from `from` on are synced, and no other record has changed. */
  ghost predicate TracksSynced(before: seq<Option<Track>>, after: seq<Option<Track>>, checksum: uint32,
                               infos: CartridgeTracks, sequence: uint32, from: nat)
  {
    && (forall i :: from <= i < |infos| ==>
          SyncedFrom(RecordOf(before, checksum, i), RecordOf(after, checksum, i), infos[i], sequence))
    && (forall cs, i: nat :: cs != checksum || !(from <= i < |infos|) ==> RecordOf(after, cs, i) == RecordOf(before, cs, i))
  }

  lemma TracksSyncedOne(c: Cache, d: seq<Option<Track>>, checksum: uint32, infos: CartridgeTracks, sequence: uint32, from: nat)
    requires Inv(c) && HasAlbum(c.albums, checksum) && from < |infos|
    requires |Used(c.tracks)| + (if RecordOf(c.tracks, checksum, from).None? then 1 else 0) <= MAX_TRACKS
    requires TracksSynced(SyncTrack(c, checksum, sequence, infos[from], from).1.tracks, d, checksum, infos, sequence, from + 1)
    ensures TracksSynced(c.tracks, d, checksum, infos, sequence, from)
  {
    SyncTrackWorks(c, checksum, sequence, infos[from], from);
    var next := SyncTrack(c, checksum, sequence, infos[from], from).1.tracks;
    forall i | from <= i < |infos|
      ensures SyncedFrom(RecordOf(c.tracks, checksum, i), RecordOf(d, checksum, i), infos[i], sequence)
    {
      if i != from {
        assert RecordOf(next, checksum, i) == RecordOf(c.tracks, checksum, i);
      } else {
        assert RecordOf(d, checksum, i) == RecordOf(next, checksum, i);
      }
    }
  }

  lemma {:induction false} SyncTracksWork(c: Cache, checksum: uint32, sequence: uint32, infos: CartridgeTracks, from: nat)
    requires Inv(c) && HasAlbum(c.albums, checksum) && from <= |infos|
    requires RoomFor(c, checksum, from, |infos|)
    ensures var (err, d) := SyncTracks(c, checksum, sequence, infos, from);
            && err == OK && Inv(d) && d.albums == c.albums && d.dirty == c.dirty
            && TracksSynced(c.tracks, d.tracks, checksum, infos, sequence, from)
    decreases |infos| - from
  {
    if from < |infos| {
      MissingFront(c.tracks, checksum, from, |infos|);
      SyncTrackWorks(c, checksum, sequence, infos[from], from);
      var next := SyncTrack(c, checksum, sequence, infos[from], from).1;
      MissingSame(c.tracks, next.tracks, checksum, from + 1, |infos|);
      SyncTracksWork(next, checksum, sequence, infos, from + 1);
      TracksSyncedOne(c, SyncTracks(next, checksum, sequence, infos, from + 1).1.tracks, checksum, infos, sequence, from);
    }
  }

  /** A pruned cache has the records of the albums that stayed, and no others. */
  lemma PrunedRecords(c: Cache, d: Cache, checksum: uint32, cs: uint32, index: nat)
    requires Inv(c) && Inv(d) && PrunedFrom(c, d, checksum) && HasAlbum(d.albums, checksum) == HasAlbum(c.albums, checksum)
    ensures RecordOf(d.tracks, cs, index) == RecordOf(c.tracks, cs, index) ||
            (RecordOf(d.tracks, cs, index) == None && cs != checksum)
  {
    var found := FindTrack(c.tracks, cs, index);
    if found.Some? {
      assert IsTrack(cs, index)(c.tracks[found.value]);
      assert HasAlbum(c.albums, cs);
      if d.tracks[found.value] == c.tracks[found.value] {
        TrackAt(d.tracks, found.value);
      } else {
        assert !HasAlbum(d.albums, cs);
        forall i | 0 <= i < |d.tracks| && d.tracks[i].Some?
          ensures d.tracks[i].value.checksum != cs || d.tracks[i].value.index != index
        {
          assert HasAlbum(d.albums, d.tracks[i].value.checksum);
        }
        TrackAbsent(d.tracks, cs, index);
      }
    } else {
      forall i | 0 <= i < |d.tracks| && d.tracks[i].Some?
        ensures d.tracks[i].value.checksum != cs || d.tracks[i].value.index != index
      {
        assert d.tracks[i] == c.tracks[i] && !IsTrack(cs, index)(c.tracks[i]);
      }
      TrackAbsent(d.tracks, cs, index);
    }
  }

  lemma AlbumPlaceWorks(c: Cache, checksum: uint32)
    requires Inv(c) && c.nextSequence < UINT32_MAX
    requires |Used(c.albums)| + (if HasAlbum(c.albums, checksum) then 0 else 1) <= MAX_ALBUMS
    ensures var (slot, d) := AlbumPlace(c, checksum, FindAlbum(c.albums, checksum));
            slot.Some? && Inv(d) && FindAlbum(d.albums, checksum) == slot && d.tracks == c.tracks && d.dirty == c.dirty &&
            (HasAlbum(c.albums, checksum) ==> d == c)
  {
    if FindAlbum(c.albums, checksum).None? {
      FreeSlotExists(c.albums);
      var slot := First(c.albums, IsFree()).value;
      assert IsFree<Album>()(c.albums[slot]);
      var d := AlbumPlace(c, checksum, None).1;
      PutAlbumKeepsPresent(c, slot, d.albums[slot].value);
      PutAlbum(c.albums, slot, d.albums[slot].value);
    }
  }

  lemma TouchAlbumWorks(c: Cache, slot: nat, m: Metadata, sequence: uint32)
    requires Inv(c) && FindAlbum(c.albums, m.checksum) == Some(slot)
    ensures var d := TouchAlbum(c, slot, m, sequence);
            && Inv(d) && d.tracks == c.tracks && d.dirty == c.dirty
            && AlbumOf(d.albums, m.checksum) == Some(AlbumOf(c.albums, m.checksum).value.(
                 trackCount := |m.tracks|, lastSeen := sequence, metadata := m.header))
  {
    assert IsAlbum(m.checksum)(c.albums[slot]);
    var album := TouchAlbum(c, slot, m, sequence).albums[slot].value;
    PutAlbumKeepsPresent(c, slot, album);
    PutAlbum(c.albums, slot, album);
  }

  /** What a sync leaves: the cartridge's album and every one of its tracks recorded as they
      are on the cartridge, their plays kept, and other records kept or pruned whole. */
  ghost predicate Synced(c: Cache, d: Cache, m: Metadata) {
    && Inv(d) && d.dirty
    && AlbumOf(d.albums, m.checksum).Some?
    && var album := AlbumOf(d.albums, m.checksum).value;
    && album.trackCount == |m.tracks| && album.metadata == m.header
    && (forall i :: 0 <= i < |m.tracks| ==>
          SyncedFrom(RecordOf(c.tracks, m.checksum, i), RecordOf(d.tracks, m.checksum, i), m.tracks[i], album.lastSeen))
    && (AlbumOf(c.albums, m.checksum).Some? ==>
          album.firstSeen == AlbumOf(c.albums, m.checksum).value.firstSeen)
    && (forall cs, i: nat :: RecordsKept(c, d, m, cs, i))
  }

  ghost predicate RecordsKept(c: Cache, d: Cache, m: Metadata, cs: uint32, i: nat) {
    cs != m.checksum || i >= |m.tracks| ==>
      RecordOf(d.tracks, cs, i) == RecordOf(c.tracks, cs, i) || (RecordOf(d.tracks, cs, i) == None && cs != m.checksum)
  }

  /** Making room leaves the cartridge's album and tracks as they were, and room for what
      is missing. */
  lemma MakeRoomWorks(c: Cache, m: Metadata)
    requires Inv(c)
    ensures var (err, d) := MakeRoom(c, m);
            && err == OK && Inv(d) && d.nextSequence == c.nextSequence && d.dirty == c.dirty
            && FindAlbum(d.albums, m.checksum) == FindAlbum(c.albums, m.checksum)
            && AlbumOf(d.albums, m.checksum) == AlbumOf(c.albums, m.checksum)
            && |Used(d.albums)| + (if HasAlbum(d.albums, m.checksum) then 0 else 1) <= MAX_ALBUMS
            && RoomFor(d, m.checksum, 0, |m.tracks|)
    ensures var d := MakeRoom(c, m).1;
            forall cs, i: nat :: RecordOf(d.tracks, cs, i) == RecordOf(c.tracks, cs, i) ||
                                 (RecordOf(d.tracks, cs, i) == None && cs != m.checksum)
  {
    var n, found := |m.tracks|, FindAlbum(c.albums, m.checksum);
    var albumDelta := if found.None? then 1 else 0;
    var trackDelta := Missing(c.tracks, m.checksum, 0, n);
    CapacityAlwaysSucceeds(c, m.checksum, n, albumDelta, trackDelta);
    var d := MakeRoom(c, m).1;
    forall cs, i: nat ensures
      RecordOf(d.tracks, cs, i) == RecordOf(c.tracks, cs, i) ||
      (RecordOf(d.tracks, cs, i) == None && cs != m.checksum)
    {
      PrunedRecords(c, d, m.checksum, cs, i);
    }
    MissingSame(c.tracks, d.tracks, m.checksum, 0, n);
    if found.Some? {
      assert IsAlbum(m.checksum)(c.albums[found.value]) && IsAlbum(m.checksum)(d.albums[found.value]);
      assert d.albums[found.value] == c.albums[found.value];
    }
  }

  lemma RecordAlbumWorks(c: Cache, m: Metadata)
    requires Inv(c) && c.nextSequence < UINT32_MAX
    requires |Used(c.albums)| + (if HasAlbum(c.albums, m.checksum) then 0 else 1) <= MAX_ALBUMS
    ensures var (sequence, d) := RecordAlbum(c, m, FindAlbum(c.albums, m.checksum));
            && sequence.Some? && Inv(d) && d.tracks == c.tracks && d.dirty == c.dirty
            && HasAlbum(d.albums, m.checksum)
            && var album := AlbumOf(d.albums, m.checksum).value;
            && album.trackCount == |m.tracks| && album.metadata == m.header && album.lastSeen == sequence.value
            && (HasAlbum(c.albums, m.checksum) ==>
                  album.firstSeen == AlbumOf(c.albums, m.checksum).value.firstSeen)
  {
    AlbumPlaceWorks(c, m.checksum);
    var (slot, placed) := AlbumPlace(c, m.checksum, FindAlbum(c.albums, m.checksum));
    var (sequence, next) := TakeSequence(placed.nextSequence);
    TouchAlbumWorks(placed.(nextSequence := next), slot.value, m, sequence);
  }

  /** A sync never runs out of slots, in any cache that obeys the invariant. */
  lemma SyncSucceeds(c: Cache, m: Metadata)
    requires Inv(c) && c.nextSequence < UINT32_MAX
    ensures SyncMetadata(c, m).0 == OK
    ensures Synced(c, SyncMetadata(c, m).1, m)
  {
    MakeRoomWorks(c, m);
    var pruned := MakeRoom(c, m).1;
    RecordAlbumWorks(pruned, m);
    var (sequence, recorded) := RecordAlbum(pruned, m, FindAlbum(c.albums, m.checksum));
    SyncTracksWork(recorded, m.checksum, sequence.value, m.tracks, 0);
    var d := SyncMetadata(c, m).1;
    forall cs, i: nat ensures RecordsKept(c, d, m, cs, i) {
    }
    forall i | 0 <= i < |m.tracks|
      ensures SyncedFrom(RecordOf(c.tracks, m.checksum, i), RecordOf(d.tracks, m.checksum, i), m.tracks[i], sequence.value)
    {
      assert RecordOf(recorded.tracks, m.checksum, i) == RecordOf(c.tracks, m.checksum, i);
    }
  }

  /** Updating the record found leaves the same slot found. */
  lemma FoundAgain(before: seq<Option<Track>>, slot: nat, checksum: uint32, index: nat, after: seq<Option<Track>>)
    requires FindTrack(before, checksum, index) == Some(slot) && |after| == |before|
    requires forall i :: 0 <= i < |before| && i != slot ==> after[i] == before[i]
    requires IsTrack(checksum, index)(after[slot])
    ensures FindTrack(after, checksum, index) == Some(slot)
  {
    FirstIs(after, IsTrack(checksum, index), slot);
  }
}
