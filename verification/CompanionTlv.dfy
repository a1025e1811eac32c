/** The companion link's payloads: a TLV writer with whole-record rollback, and the finder
    that reads them. */
module CompanionTlv {
  import opened Bytes

  const TLV_HEADER_LEN: nat := 4
  const PAYLOAD_CAPACITY: nat := 2048 - 12

  datatype Option<+T> = None | Some(value: T)

  datatype Tlv = Tlv(kind: uint16, value: seq<byte>)

  ghost predicate Encodable(entries: seq<Tlv>) {
    forall i :: 0 <= i < |entries| ==> |entries[i].value| <= 0xFFFF
  }

  ghost function Encode(entry: Tlv): seq<byte>
    requires |entry.value| <= 0xFFFF
  {
    Le16(entry.kind) + Le16(|entry.value|) + entry.value
  }

  ghost function EncodeAll(entries: seq<Tlv>): seq<byte>
    requires Encodable(entries)
  {
    if entries == [] then [] else Encode(entries[0]) + EncodeAll(entries[1..])
  }

  lemma {:induction false} EncodeSplit(left: seq<Tlv>, right: seq<Tlv>)
    requires Encodable(left) && Encodable(right)
    ensures Encodable(left + right)
    ensures EncodeAll(left + right) == EncodeAll(left) + EncodeAll(right)
  {
    if left == [] {
      assert left + right == right;
    } else {
      assert (left + right)[1..] == left[1..] + right;
      assert (left + right)[0] == left[0];
      EncodeSplit(left[1..], right);
      Assoc(Encode(left[0]), EncodeAll(left[1..]), EncodeAll(right));
    }
  }

  lemma EncodeOne(entries: seq<Tlv>, entry: Tlv)
    requires Encodable(entries) && |entry.value| <= 0xFFFF
    ensures Encodable(entries + [entry])
    ensures EncodeAll(entries + [entry]) == EncodeAll(entries) + Encode(entry)
  {
    EncodeSplit(entries, [entry]);
    assert [entry][1..] == [];
    assert EncodeAll([entry]) == Encode(entry);
  }

  // ----- Reading -----

  /** The entry at the front of `payload`, if a whole one is there. */
  function FirstEntry(payload: seq<byte>): (entry: Option<Tlv>)
    ensures entry.Some? ==> |payload| >= TLV_HEADER_LEN + |entry.value.value|
  {
    if |payload| < TLV_HEADER_LEN then None
    else
      var length: nat := FromLe16(payload[2..4]);
      if |payload| < TLV_HEADER_LEN + length then None
      else Some(Tlv(FromLe16(payload[..2]), payload[4..4 + length]))
  }

  /** All whole entries from the front, up to the first that is cut short. */
  function Entries(payload: seq<byte>): seq<Tlv>
    decreases |payload|
  {
    match FirstEntry(payload)
    case None => []
    case Some(entry) => [entry] + Entries(payload[TLV_HEADER_LEN + |entry.value|..])
  }

  /** The value of the first entry of this kind. */
  function FirstOfKind(entries: seq<Tlv>, kind: uint16): Option<seq<byte>> {
    if entries == [] then None
    else if entries[0].kind == kind then Some(entries[0].value)
    else FirstOfKind(entries[1..], kind)
  }

  /** Entry `i` is of this kind and none before it is. */
  ghost predicate IsFirst(entries: seq<Tlv>, kind: uint16, i: nat) {
    i < |entries| && entries[i].kind == kind && forall k :: 0 <= k < i ==> entries[k].kind != kind
  }

  lemma {:induction false} FirstOfKindIsFirst(entries: seq<Tlv>, kind: uint16) returns (i: nat)
    ensures FirstOfKind(entries, kind).None? ==> forall k :: 0 <= k < |entries| ==> entries[k].kind != kind
    ensures FirstOfKind(entries, kind).Some? ==>
              IsFirst(entries, kind, i) && entries[i].value == FirstOfKind(entries, kind).value
  {
    i := 0;
    if entries != [] && entries[0].kind != kind {
      var j := FirstOfKindIsFirst(entries[1..], kind);
      i := j + 1;
      assert forall k :: 1 <= k < |entries| ==> entries[k] == entries[1..][k - 1];
    }
  }

  lemma FirstEncoded(entry: Tlv, rest: seq<byte>)
    requires |entry.value| <= 0xFFFF
    ensures FirstEntry(Encode(entry) + rest) == Some(entry)
  {
    var payload := Encode(entry) + rest;
    Le16RoundTrip(entry.kind, [0, 0]);
    Le16RoundTrip(|entry.value|, [0, 0]);
    assert payload[..2] == Le16(entry.kind) && payload[2..4] == Le16(|entry.value|);
    assert payload[4..4 + |entry.value|] == entry.value;
  }

  /** Reading back what was written. */
  lemma {:induction false} EntriesOfEncoded(entries: seq<Tlv>)
    requires Encodable(entries)
    ensures Entries(EncodeAll(entries)) == entries
  {
    if entries != [] {
      var rest := EncodeAll(entries[1..]);
      FirstEncoded(entries[0], rest);
      assert EncodeAll(entries)[TLV_HEADER_LEN + |entries[0].value|..] == rest;
      EntriesOfEncoded(entries[1..]);
    } else {
      assert EncodeAll(entries) == [];
    }
  }

  /** Any payload is its whole entries followed by a tail that holds none. */
  lemma {:induction false} EntriesReencode(payload: seq<byte>) returns (tail: seq<byte>)
    ensures Encodable(Entries(payload))
    ensures payload == EncodeAll(Entries(payload)) + tail && FirstEntry(tail) == None
    decreases |payload|
  {
    match FirstEntry(payload)
    case None =>
      tail := payload;
    case Some(entry) =>
      var after := payload[TLV_HEADER_LEN + |entry.value|..];
      tail := EntriesReencode(after);
      assert Entries(payload)[1..] == Entries(after);
      Le16RoundTrip(0, payload[..2]);
      Le16RoundTrip(0, payload[2..4]);
      assert payload == Encode(entry) + after;
  }

  /** What a search that has come to `offset` will find. */
  ghost function FoundFrom(payload: seq<byte>, offset: nat, kind: uint16): Option<seq<byte>>
    requires offset <= |payload|
  {
    FirstOfKind(Entries(payload[offset..]), kind)
  }

  lemma EntryAt(payload: seq<byte>, offset: nat)
    requires offset <= |payload|
    ensures var entry := FirstEntry(payload[offset..]);
            if offset + TLV_HEADER_LEN > |payload| then entry == None
            else
              var kind := FromLe16(payload[offset..offset + 2]);
              var length: nat := FromLe16(payload[offset + 2..offset + 4]);
              var value := offset + TLV_HEADER_LEN;
              if value + length > |payload| then entry == None
              else entry == Some(Tlv(kind, payload[value..value + length]))
  {
    var here := payload[offset..];
    if |here| >= TLV_HEADER_LEN {
      SliceOfTail(payload, offset, 0, 2);
      SliceOfTail(payload, offset, 2, 4);
      assert here[..2] == here[0..2];
      var length: nat := FromLe16(here[2..4]);
      if TLV_HEADER_LEN + length <= |here| {
        SliceOfTail(payload, offset, 4, 4 + length);
      }
    }
  }

  lemma FoundStep(payload: seq<byte>, offset: nat, kind: uint16)
    requires offset <= |payload| && FirstEntry(payload[offset..]).Some?
    ensures var entry := FirstEntry(payload[offset..]).value;
            var next := offset + TLV_HEADER_LEN + |entry.value|;
            next <= |payload| &&
            FoundFrom(payload, offset, kind) ==
            if entry.kind == kind then Some(entry.value) else FoundFrom(payload, next, kind)
  {
    var entry := FirstEntry(payload[offset..]).value;
    var next := offset + TLV_HEADER_LEN + |entry.value|;
    assert payload[offset..][TLV_HEADER_LEN + |entry.value|..] == payload[next..];
    var rest := Entries(payload[next..]);
    assert Entries(payload[offset..]) == [entry] + rest;
    assert ([entry] + rest)[1..] == rest;
  }

  /** The first entry of a kind, or nothing when no whole entry of it precedes a cut one. */
  method FindTlv(payload: seq<byte>, kind: uint16) returns (value: Option<seq<byte>>)
    ensures value == FirstOfKind(Entries(payload), kind)
  {
    var offset := 0;
    assert payload[0..] == payload;
    while offset + TLV_HEADER_LEN <= |payload|
      invariant offset <= |payload|
      invariant FoundFrom(payload, 0, kind) == FoundFrom(payload, offset, kind)
    {
      EntryAt(payload, offset);
      var tlvKind := FromLe16(payload[offset..offset + 2]);
      var tlvLen: nat := FromLe16(payload[offset + 2..offset + 4]);
      if offset + TLV_HEADER_LEN + tlvLen > |payload| {
        return None;
      }
      FoundStep(payload, offset, kind);
      offset := offset + TLV_HEADER_LEN;
      if tlvKind == kind {
        return Some(payload[offset..offset + tlvLen]);
      }
      offset := offset + tlvLen;
    }
    EntryAt(payload, offset);
    return None;
  }

  // ----- Writing -----

  /** One track as the library page lists it. */
  datatype Track = Track(index: uint32, title: seq<byte>, artists: seq<byte>, duration: uint32, fileNum: uint32)

  const TLV_DURATION_SEC: uint16 := 0x0306
  const TLV_TRACK_INDEX: uint16 := 0x0302
  const TLV_TRACK_COUNT: uint16 := 0x0303
  const TLV_TRACK_TITLE: uint16 := 0x0309
  const TLV_TRACK_ARTIST: uint16 := 0x030A
  const TLV_TRACK_FILE: uint16 := 0x030B
  const TLV_OFFSET: uint16 := 0x040A
  const TLV_RETURNED_COUNT: uint16 := 0x040C
  const PAGE_TRACKS: nat := 8

  /** Strings longer than a length field can say are cut. */
  function Clip(text: seq<byte>): (clipped: seq<byte>)
    ensures |clipped| <= 0xFFFF
  {
    if |text| > 0xFFFF then text[..0xFFFF] else text
  }

  ghost function TrackEntries(track: Track): (entries: seq<Tlv>)
    ensures Encodable(entries)
  {
    [Tlv(TLV_TRACK_INDEX, Le32(track.index)), Tlv(TLV_TRACK_TITLE, Clip(track.title)),
     Tlv(TLV_TRACK_ARTIST, Clip(track.artists)), Tlv(TLV_DURATION_SEC, Le32(track.duration)),
     Tlv(TLV_TRACK_FILE, Le32(track.fileNum))]
  }

  function TrackSize(track: Track): nat {
    5 * TLV_HEADER_LEN + 12 + |Clip(track.title)| + |Clip(track.artists)|
  }

  ghost function TracksEntries(tracks: seq<Track>): (entries: seq<Tlv>)
    ensures Encodable(entries)
  {
    if tracks == [] then []
    else
      var last := |tracks| - 1;
      TracksEntries(tracks[..last]) + TrackEntries(tracks[last])
  }

  class Writer {
    const data: array<byte>
    var len: nat
    /** The entries written so far. */
    ghost var entries: seq<Tlv>

    ghost predicate Valid()
      reads this, data
    {
      && data.Length == PAYLOAD_CAPACITY && len <= data.Length
      && Encodable(entries) && data[..len] == EncodeAll(entries)
    }

    constructor ()
      ensures Valid() && entries == [] && fresh(data)
    {
      data := new byte[PAYLOAD_CAPACITY](_ => 0);
      len := 0;
      entries := [];
    }

    /** Appends a whole entry, or leaves the payload as it is when there is no room. */
    method AppendTlv(kind: uint16, value: seq<byte>) returns (ok: bool)
      requires Valid() && |value| <= 0xFFFF
      modifies this`len, this`entries, data
      ensures Valid()
      ensures ok <==> old(len) + TLV_HEADER_LEN + |value| <= PAYLOAD_CAPACITY
      ensures ok ==> entries == old(entries) + [Tlv(kind, value)]
      ensures !ok ==> entries == old(entries)
      ensures len == old(len) + (if ok then TLV_HEADER_LEN + |value| else 0)
      ensures forall i :: 0 <= i < old(len) ==> data[i] == old(data[i])
    {
      if len + TLV_HEADER_LEN + |value| > data.Length {
        return false;
      }
      EncodeOne(entries, Tlv(kind, value));
      WriteAt(len, Le16(kind) + Le16(|value|) + value);
      entries := entries + [Tlv(kind, value)];
      len := len + TLV_HEADER_LEN + |value|;
      return true;
    }

    method WriteAt(at: nat, bytes: seq<byte>)
      requires at + |bytes| <= data.Length
      modifies data
      ensures data[..at + |bytes|] == old(data[..at]) + bytes
      ensures forall i :: 0 <= i < at ==> data[i] == old(data[i])
    {
      for i := 0 to |bytes|
        invariant data[..at + i] == old(data[..at]) + bytes[..i]
        invariant forall k :: 0 <= k < at ==> data[k] == old(data[k])
      {
        data[at + i] := bytes[i];
      }
      assert bytes[..|bytes|] == bytes;
    }

    method AppendU32(kind: uint16, value: uint32) returns (ok: bool)
      requires Valid()
      modifies this`len, this`entries, data
      ensures Valid()
      ensures ok <==> old(len) + TLV_HEADER_LEN + 4 <= PAYLOAD_CAPACITY
      ensures entries == if ok then old(entries) + [Tlv(kind, Le32(value))] else old(entries)
      ensures len == old(len) + (if ok then TLV_HEADER_LEN + 4 else 0)
      ensures forall i :: 0 <= i < old(len) ==> data[i] == old(data[i])
    {
      ok := AppendTlv(kind, Le32(value));
    }

    method AppendString(kind: uint16, value: seq<byte>) returns (ok: bool)
      requires Valid()
      modifies this`len, this`entries, data
      ensures Valid()
      ensures ok <==> old(len) + TLV_HEADER_LEN + |Clip(value)| <= PAYLOAD_CAPACITY
      ensures entries == if ok then old(entries) + [Tlv(kind, Clip(value))] else old(entries)
      ensures len == old(len) + (if ok then TLV_HEADER_LEN + |Clip(value)| else 0)
      ensures forall i :: 0 <= i < old(len) ==> data[i] == old(data[i])
    {
      ok := AppendTlv(kind, Clip(value));
    }

    /** Takes the payload back to an earlier length, which must be where `kept` ended. */
    method RollBack(before: nat, ghost kept: seq<Tlv>)
      requires Valid() && before <= len
      requires Encodable(kept) && data[..before] == EncodeAll(kept)
      modifies this`len, this`entries
      ensures Valid() && len == before && entries == kept
    {
      len := before;
      entries := kept;
    }

    /** The entries of one track one after the other, until one does not fit. */
    method AppendFields(track: Track) returns (ok: bool)
      requires Valid()
      modifies this`len, this`entries, data
      ensures Valid() && len >= old(len)
      ensures ok <==> old(len) + TrackSize(track) <= PAYLOAD_CAPACITY
      ensures ok ==> entries == old(entries) + TrackEntries(track) && len == old(len) + TrackSize(track)
      ensures forall i :: 0 <= i < old(len) ==> data[i] == old(data[i])
    {
      ok := AppendU32(TLV_TRACK_INDEX, track.index);
      if ok {
        ok := AppendString(TLV_TRACK_TITLE, track.title);
      }
      if ok {
        ok := AppendString(TLV_TRACK_ARTIST, track.artists);
      }
      if ok {
        ok := AppendU32(TLV_DURATION_SEC, track.duration);
      }
      if ok {
        ok := AppendU32(TLV_TRACK_FILE, track.fileNum);
      }
    }

    /** The five entries of one track: all of them when they fit, and otherwise none. */
    method AppendTrack(track: Track) returns (ok: bool)
      requires Valid()
      modifies this`len, this`entries, data
      ensures Valid()
      ensures ok <==> old(len) + TrackSize(track) <= PAYLOAD_CAPACITY
      ensures entries == if ok then old(entries) + TrackEntries(track) else old(entries)
      ensures len == old(len) + if ok then TrackSize(track) else 0
    {
      var before := len;
      ghost var kept := entries;
      ok := AppendFields(track);
      if !ok {
        assert data[..before] == old(data[..len]);
        RollBack(before, kept);
      }
    }

    method AppendNext(ghost head: seq<Tlv>, tracks: seq<Option<Track>>, offset: uint32, returned: nat) returns (ok: bool)
      requires Valid() && offset + returned < |tracks| && Readable(tracks, offset, returned)
      requires entries == ListedAfter(head, tracks, offset, returned)
      modifies this`len, this`entries, data
      ensures Valid()
      ensures ok <==> tracks[offset + returned].Some? &&
                      old(len) + TrackSize(tracks[offset + returned].value) <= PAYLOAD_CAPACITY
      ensures ok ==> Readable(tracks, offset, returned + 1) && entries == ListedAfter(head, tracks, offset, returned + 1)
      ensures !ok ==> entries == old(entries) && len == old(len)
    {
      var track := tracks[offset as nat + returned];
      if track.None? {
        return false;
      }
      ListedOne(head, tracks, offset, returned);
      ok := AppendTrack(track.value);
    }

    /** Tracks from `offset` on until `limit` are listed, there are no more, or the next one
        cannot be read or does not fit. */
    method AppendTracks(tracks: seq<Option<Track>>, offset: uint32, limit: nat) returns (returned: nat)
      requires Valid()
      modifies this`len, this`entries, data
      ensures Valid()
      ensures returned <= limit && Readable(tracks, offset, returned)
      ensures entries == ListedAfter(old(entries), tracks, offset, returned)
      ensures returned < limit && offset + returned < |tracks| ==> EndsPage(tracks[offset + returned], len)
    {
      ghost var head := entries;
      returned := 0;
      ListedNone(head, tracks, offset);
      while returned < limit && offset as nat + returned < |tracks|
        invariant Valid() && returned <= limit && Readable(tracks, offset, returned)
        invariant entries == ListedAfter(head, tracks, offset, returned)
      {
        var fitted := AppendNext(head, tracks, offset, returned);
        if !fitted {
          return;
        }
        returned := returned + 1;
      }
    }

    /** A page of the track list: up to eight tracks from `offset` on, as many as can be read
        and fit, and the count of those that did. A track that cannot be read is `None`. */
    method TrackPage(tracks: seq<Option<Track>>, offset: uint32, count: uint32) returns (returned: nat, counted: bool)
      requires Valid() && entries == []
      requires |tracks| <= 999
      modifies this`len, this`entries, data
      ensures Valid()
      ensures returned <= count && returned <= PAGE_TRACKS && Readable(tracks, offset, returned)
      ensures returned < count && returned < PAGE_TRACKS && offset + returned < |tracks| ==>
                EndsPage(tracks[offset + returned], len - (if counted then TLV_HEADER_LEN + 4 else 0))
      ensures entries ==
              ListedAfter(PageHead(offset, |tracks|), tracks, offset, returned) +
              (if counted then [Tlv(TLV_RETURNED_COUNT, Le32(returned))] else [])
    {
      assert |data[..len]| == len == |EncodeAll([])| == 0;
      var limit: nat := if count as nat > PAGE_TRACKS then PAGE_TRACKS else count;
      var ok := AppendU32(TLV_OFFSET, offset);
      ok := AppendU32(TLV_TRACK_COUNT, |tracks|);
      assert entries == PageHead(offset, |tracks|);
      returned := AppendTracks(tracks, offset, limit);
      counted := AppendU32(TLV_RETURNED_COUNT, returned);
    }
  }

  /** The track cannot be read, or does not fit behind `len` bytes. */
  ghost predicate EndsPage(track: Option<Track>, len: int) {
    track.None? || len + TrackSize(track.value) > PAYLOAD_CAPACITY
  }

  ghost predicate Readable(tracks: seq<Option<Track>>, offset: nat, returned: nat) {
    (returned > 0 ==> offset + returned <= |tracks|) &&
    forall i :: offset <= i < offset + returned ==> tracks[i].Some?
  }

  ghost function PageHead(offset: uint32, trackCount: uint32): seq<Tlv> {
    [Tlv(TLV_OFFSET, Le32(offset)), Tlv(TLV_TRACK_COUNT, Le32(trackCount))]
  }

  ghost function Listed(tracks: seq<Option<Track>>, offset: nat, returned: nat): (listed: seq<Track>)
    requires Readable(tracks, offset, returned)
    ensures |listed| == returned
  {
    seq(returned, i requires 0 <= i < returned => tracks[offset + i].value)
  }

  /** The entries of the tracks listed, after `head`. */
  ghost function ListedAfter(head: seq<Tlv>, tracks: seq<Option<Track>>, offset: nat, returned: nat): seq<Tlv>
    requires Readable(tracks, offset, returned)
  {
    head + TracksEntries(Listed(tracks, offset, returned))
  }

  lemma ListedNone(head: seq<Tlv>, tracks: seq<Option<Track>>, offset: nat)
    ensures ListedAfter(head, tracks, offset, 0) == head
  {
  }

  lemma ListedOne(head: seq<Tlv>, tracks: seq<Option<Track>>, offset: nat, returned: nat)
    requires Readable(tracks, offset, returned) && offset + returned < |tracks| && tracks[offset + returned].Some?
    ensures Readable(tracks, offset, returned + 1)
    ensures ListedAfter(head, tracks, offset, returned + 1) ==
            ListedAfter(head, tracks, offset, returned) + TrackEntries(tracks[offset + returned].value)
  {
    var now := Listed(tracks, offset, returned + 1);
    assert now[..returned] == Listed(tracks, offset, returned);
    Assoc(head, TracksEntries(now[..returned]), TrackEntries(now[returned]));
  }
}
