/** The host-side album builder: Opus packets become length-coded, CRC-protected
    chunks, and chunks become a `.jba` file with a lookup table. */
module AlbumBuilder {
  import opened Bytes

  type Packet = seq<byte>
  /** CRC-32 of a byte string; nothing is assumed about it. */
  type Crc = seq<byte> -> uint32

  datatype Error = PacketTooLong | ChunkTooLarge | NoChunks | TooLargeForUint32
  datatype Result<+T> = Ok(value: T) | Err(error: Error)

  const JBA_VERSION: byte := 1
  const HEADER_BLOCK_SIZE: nat := 512
  const FILE_HEADER_BYTES: nat := 9
  const PACKETS_PER_CHUNK: nat := 50
  const MAX_CHUNK_BYTES: nat := 24 * 1024
  const MAX_PACKET_BYTES: nat := 1275

  // ----- Length coding (RFC 6716, section 3.2.1) -----

  function EncodePacketLength(len: nat): (r: Result<seq<byte>>)
    ensures r.Ok? <==> len <= MAX_PACKET_BYTES
    ensures r.Ok? ==> |r.value| == if len < 252 then 1 else 2
    ensures r.Ok? && len < 252 ==> r.value[0] as nat == len
    ensures r.Ok? && len >= 252 ==>
              r.value[0] >= 252 && r.value[0] as nat + 4 * r.value[1] as nat == len
  {
    if len < 252 then Ok([len])
    else if len > MAX_PACKET_BYTES then Err(PacketTooLong)
    else
      var first := 252 + (len - 252) % 4;
      Ok([first, (len - first) / 4])
  }

  ghost predicate Encodable(packets: seq<Packet>) {
    forall i :: 0 <= i < |packets| ==> |packets[i]| <= MAX_PACKET_BYTES
  }

  ghost function Framed(packet: Packet): seq<byte>
    requires |packet| <= MAX_PACKET_BYTES
  {
    EncodePacketLength(|packet|).value + packet
  }

  ghost function Payload(packets: seq<Packet>): seq<byte>
    requires Encodable(packets)
  {
    if packets == [] then [] else Framed(packets[0]) + Payload(packets[1..])
  }

  lemma {:induction false} PayloadOne(packets: seq<Packet>, packet: Packet)
    requires Encodable(packets) && |packet| <= MAX_PACKET_BYTES
    ensures Encodable(packets + [packet])
    ensures Payload(packets + [packet]) == Payload(packets) + Framed(packet)
  {
    if packets == [] {
      assert packets + [packet] == [packet];
      assert [packet][1..] == [];
    } else {
      assert (packets + [packet])[1..] == packets[1..] + [packet];
      assert (packets + [packet])[0] == packets[0];
      PayloadOne(packets[1..], packet);
      Assoc(Framed(packets[0]), Payload(packets[1..]), Framed(packet));
    }
  }

  // ----- Chunks -----

  function GroupCount(packets: seq<Packet>): nat {
    (|packets| + PACKETS_PER_CHUNK - 1) / PACKETS_PER_CHUNK
  }

  /** The packets of second `k`. */
  function Group(packets: seq<Packet>, k: nat): (group: seq<Packet>)
    requires k < GroupCount(packets)
    ensures group != [] && |group| <= PACKETS_PER_CHUNK
  {
    var start := k * PACKETS_PER_CHUNK;
    var end := if start + PACKETS_PER_CHUNK <= |packets| then start + PACKETS_PER_CHUNK else |packets|;
    packets[start..end]
  }

  ghost function ChunkOf(crc: Crc, group: seq<Packet>): seq<byte>
    requires Encodable(group)
  {
    Le32(crc(Payload(group))) + Payload(group)
  }

  ghost predicate ChunkFits(group: seq<Packet>)
    requires Encodable(group)
  {
    4 + |Payload(group)| <= MAX_CHUNK_BYTES
  }

  ghost predicate Buildable(packets: seq<Packet>) {
    Encodable(packets) &&
    forall k :: 0 <= k < GroupCount(packets) ==> ChunkFits(Group(packets, k))
  }

  /** `chunks` are the first chunks of `packets`, one per second. */
  ghost predicate AreChunksOf(crc: Crc, packets: seq<Packet>, chunks: seq<seq<byte>>) {
    Encodable(packets) && |chunks| <= GroupCount(packets) &&
    forall k :: 0 <= k < |chunks| ==> chunks[k] == ChunkOf(crc, Group(packets, k))
  }

  method BuildPayload(group: seq<Packet>) returns (r: Result<seq<byte>>)
    ensures r.Ok? <==> Encodable(group)
    ensures r.Ok? ==> r.value == Payload(group)
    ensures r.Err? ==> r.error == PacketTooLong
  {
    var payload: seq<byte> := [];
    assert group[..0] == [];
    for i := 0 to |group|
      invariant Encodable(group[..i])
      invariant payload == Payload(group[..i])
    {
      var length := EncodePacketLength(|group[i]|);
      if length.Err? {
        return Err(length.error);
      }
      PayloadOne(group[..i], group[i]);
      assert group[..i + 1] == group[..i] + [group[i]];
      payload := payload + length.value + group[i];
    }
    assert group[..|group|] == group;
    return Ok(payload);
  }

  /** Chunk `k` of the packets, within bounds. */
  ghost predicate IsChunkOf(crc: Crc, packets: seq<Packet>, k: nat, chunk: seq<byte>)
    requires k < GroupCount(packets)
  {
    Encodable(Group(packets, k)) && ChunkFits(Group(packets, k)) && chunk == ChunkOf(crc, Group(packets, k))
  }

  /** The chunks of the first seconds. */
  ghost predicate FirstChunks(crc: Crc, packets: seq<Packet>, chunks: seq<seq<byte>>) {
    |chunks| <= GroupCount(packets) && forall k :: 0 <= k < |chunks| ==> IsChunkOf(crc, packets, k, chunks[k])
  }

  lemma OneMoreChunk(crc: Crc, packets: seq<Packet>, chunks: seq<seq<byte>>, chunk: seq<byte>)
    requires FirstChunks(crc, packets, chunks) && |chunks| < GroupCount(packets)
    requires IsChunkOf(crc, packets, |chunks|, chunk)
    ensures FirstChunks(crc, packets, chunks + [chunk])
  {
    var all := chunks + [chunk];
    forall k | 0 <= k < |all| ensures IsChunkOf(crc, packets, k, all[k]) {
      if k < |chunks| {
        assert IsChunkOf(crc, packets, k, chunks[k]);
      }
    }
  }

  /** A group that cannot be coded, or does not fit, spoils the list. */
  lemma BadGroup(packets: seq<Packet>, k: nat)
    requires k < GroupCount(packets)
    requires Encodable(Group(packets, k)) ==> !ChunkFits(Group(packets, k))
    ensures !Buildable(packets)
  {
    var group := Group(packets, k);
    if !Encodable(group) {
      var i :| 0 <= i < |group| && |group[i]| > MAX_PACKET_BYTES;
      assert packets[k * PACKETS_PER_CHUNK + i] == group[i];
    }
  }

  /** One bounded chunk for each second makes a buildable list. */
  lemma WholeListBuilt(crc: Crc, packets: seq<Packet>, chunks: seq<seq<byte>>)
    requires FirstChunks(crc, packets, chunks) && |chunks| == GroupCount(packets)
    ensures Buildable(packets) && AreChunksOf(crc, packets, chunks)
  {
    forall i | 0 <= i < |packets| ensures |packets[i]| <= MAX_PACKET_BYTES {
      var k := i / PACKETS_PER_CHUNK;
      assert IsChunkOf(crc, packets, k, chunks[k]);
      assert Group(packets, k)[i - k * PACKETS_PER_CHUNK] == packets[i];
    }
    forall k | 0 <= k < |chunks|
      ensures ChunkFits(Group(packets, k)) && chunks[k] == ChunkOf(crc, Group(packets, k))
    {
      assert IsChunkOf(crc, packets, k, chunks[k]);
    }
  }

  /** Groups of fifty packets, each length-coded, prefixed with its CRC and bounded. */
  method BuildChunks(crc: Crc, packets: seq<Packet>) returns (r: Result<seq<seq<byte>>>)
    ensures r.Ok? <==> Buildable(packets)
    ensures r.Ok? ==> AreChunksOf(crc, packets, r.value) && |r.value| == GroupCount(packets)
  {
    var chunks: seq<seq<byte>> := [];
    var start := 0;
    while start < |packets|
      invariant start == |chunks| * PACKETS_PER_CHUNK
      invariant FirstChunks(crc, packets, chunks)
      decreases |packets| - start
    {
      var end := if start + PACKETS_PER_CHUNK <= |packets| then start + PACKETS_PER_CHUNK else |packets|;
      var group := packets[start..end];
      assert group == Group(packets, |chunks|);
      var payload := BuildPayload(group);
      if payload.Err? {
        BadGroup(packets, |chunks|);
        return Err(PacketTooLong);
      }
      var chunk := Le32(crc(payload.value)) + payload.value;
      if |chunk| > MAX_CHUNK_BYTES {
        BadGroup(packets, |chunks|);
        return Err(ChunkTooLarge);
      }
      OneMoreChunk(crc, packets, chunks, chunk);
      chunks := chunks + [chunk];
      start := start + PACKETS_PER_CHUNK;
    }
    WholeListBuilt(crc, packets, chunks);
    return Ok(chunks);
  }

  // ----- The file -----

  /** Byte offset of chunk `i` in the audio area. */
  ghost function Offset(chunks: seq<seq<byte>>, i: nat): nat
    requires i <= |chunks|
  {
    |Concat(chunks[..i])|
  }

  /** As few blocks as hold header and table. */
  function HeaderBlocks(chunkCount: nat): (blocks: nat)
    ensures (blocks - 1) * HEADER_BLOCK_SIZE < FILE_HEADER_BYTES + 4 * chunkCount <= blocks * HEADER_BLOCK_SIZE
  {
    (FILE_HEADER_BYTES + 4 * chunkCount + HEADER_BLOCK_SIZE - 1) / HEADER_BLOCK_SIZE
  }

  ghost function FileSize(chunks: seq<seq<byte>>): nat {
    HeaderBlocks(|chunks|) * HEADER_BLOCK_SIZE + |Concat(chunks)|
  }

  /** The `.jba` layout: every byte of `file` is determined by `chunks`. */
  ghost predicate IsJba(file: seq<byte>, chunks: seq<seq<byte>>) {
    var tableEnd := FILE_HEADER_BYTES + 4 * |chunks|;
    var dataOffset := HeaderBlocks(|chunks|) * HEADER_BLOCK_SIZE;
    && |file| == FileSize(chunks) <= UINT32_MAX
    && tableEnd <= dataOffset
    && file[0] == JBA_VERSION
    && FromLe32(file[1..5]) == HeaderBlocks(|chunks|)
    && FromLe32(file[5..9]) == |chunks|
    && (forall i :: 0 <= i < |chunks| ==> FromLe32(file[9 + 4 * i..13 + 4 * i]) == Offset(chunks, i))
    && (forall i :: tableEnd <= i < dataOffset ==> file[i] == 0)
    && file[dataOffset..] == Concat(chunks)
  }

  lemma OffsetNext(chunks: seq<seq<byte>>, i: nat)
    requires i < |chunks|
    ensures Offset(chunks, i + 1) == Offset(chunks, i) + |chunks[i]| <= |Concat(chunks)|
  {
    assert chunks[..i + 1] == chunks[..i] + [chunks[i]];
    ConcatOne(chunks[..i], chunks[i]);
    assert chunks == chunks[..i + 1] + chunks[i + 1..];
    ConcatSplit(chunks[..i + 1], chunks[i + 1..]);
  }

  lemma OffsetWhole(chunks: seq<seq<byte>>)
    ensures Offset(chunks, |chunks|) == |Concat(chunks)|
  {
    assert chunks[..|chunks|] == chunks;
  }

  lemma OffsetWithin(chunks: seq<seq<byte>>, i: nat)
    requires i <= |chunks|
    ensures Offset(chunks, i) <= |Concat(chunks)|
  {
    assert chunks == chunks[..i] + chunks[i..];
    ConcatSplit(chunks[..i], chunks[i..]);
  }

  method BuildLookupTable(chunks: seq<seq<byte>>) returns (r: Result<seq<uint32>>)
    ensures r.Ok? <==> chunks == [] || |Concat(chunks)| <= UINT32_MAX
    ensures r.Ok? ==> |r.value| == |chunks| &&
                      forall i :: 0 <= i < |chunks| ==> r.value[i] == Offset(chunks, i)
  {
    var table: seq<uint32> := [];
    var offset := 0;
    OffsetWhole(chunks);
    for i := 0 to |chunks|
      invariant offset == Offset(chunks, i) && |table| == i
      invariant forall k :: 0 <= k < i ==> table[k] == Offset(chunks, k)
      invariant i > 0 ==> offset <= UINT32_MAX
    {
      OffsetNext(chunks, i);
      if offset > UINT32_MAX {
        return Err(TooLargeForUint32);
      }
      table := table + [offset];
      offset := offset + |chunks[i]|;
      if offset > UINT32_MAX {
        OffsetWithin(chunks, i + 1);
        return Err(TooLargeForUint32);
      }
    }
    return Ok(table);
  }

  method EncodeTable(table: seq<uint32>) returns (bytes: seq<byte>)
    ensures |bytes| == 4 * |table|
    ensures forall i :: 0 <= i < |table| ==> bytes[4 * i..4 * i + 4] == Le32(table[i])
  {
    bytes := [];
    for i := 0 to |table|
      invariant |bytes| == 4 * i
      invariant forall k :: 0 <= k < i ==> bytes[4 * k..4 * k + 4] == Le32(table[k])
    {
      ghost var before := bytes;
      bytes := bytes + Le32(table[i]);
      forall k | 0 <= k < i ensures bytes[4 * k..4 * k + 4] == Le32(table[k]) {
        assert bytes[4 * k..4 * k + 4] == before[4 * k..4 * k + 4];
      }
    }
  }

  /** Where the parts of the file lie. */
  lemma FileParts(version: byte, blocks: seq<byte>, count: seq<byte>, table: seq<byte>, padding: seq<byte>,
                  data: seq<byte>)
    requires |blocks| == 4 && |count| == 4
    ensures var file := [version] + blocks + count + table + padding + data;
            && |file| == 9 + |table| + |padding| + |data| && file[0] == version
            && file[1..5] == blocks && file[5..9] == count && file[9..9 + |table|] == table
            && file[9 + |table| + |padding|..] == data
  {
    var file := [version] + blocks + count + table + padding + data;
    var front := [version] + blocks + count;
    assert |front| == 9 && front[1..5] == blocks && front[5..9] == count;
    assert file == front + (table + padding + data);
    assert file[1..5] == front[1..5] && file[5..9] == front[5..9];
  }

  /** A table placed behind the header's first nine bytes reads back as the offsets. */
  lemma EntriesReadBack(file: seq<byte>, chunks: seq<seq<byte>>, offsets: seq<uint32>, table: seq<byte>)
    requires |offsets| == |chunks| && |table| == 4 * |chunks| && 9 + |table| <= |file|
    requires file[9..9 + |table|] == table
    requires forall i :: 0 <= i < |chunks| ==> offsets[i] == Offset(chunks, i)
    requires forall i :: 0 <= i < |chunks| ==> table[4 * i..4 * i + 4] == Le32(offsets[i])
    ensures forall i :: 0 <= i < |chunks| ==> FromLe32(file[9 + 4 * i..13 + 4 * i]) == Offset(chunks, i)
  {
    forall i | 0 <= i < |chunks|
      ensures FromLe32(file[9 + 4 * i..13 + 4 * i]) == Offset(chunks, i)
    {
      SliceOfSlice(file, 9, 9 + |table|, 4 * i, 4 * i + 4);
      Le32RoundTrip(offsets[i]);
    }
  }

  /** Lays out header, lookup table, zero padding and chunks. */
  method BuildJba(chunks: seq<seq<byte>>) returns (r: Result<seq<byte>>)
    ensures r.Ok? <==> chunks != [] && FileSize(chunks) <= UINT32_MAX
    ensures r.Ok? ==> IsJba(r.value, chunks)
  {
    if chunks == [] {
      return Err(NoChunks);
    }
    var lookup := BuildLookupTable(chunks);
    if lookup.Err? {
      return Err(lookup.error);
    }
    var data := Concat(chunks);
    var headerSize := FILE_HEADER_BYTES + 4 * |chunks|;
    var blocks := HeaderBlocks(|chunks|);
    if |chunks| > UINT32_MAX || blocks > UINT32_MAX || blocks * HEADER_BLOCK_SIZE + |data| > UINT32_MAX {
      return Err(TooLargeForUint32);
    }
    var table := EncodeTable(lookup.value);
    var padding: seq<byte> := seq(blocks * HEADER_BLOCK_SIZE - headerSize, _ => 0);
    var file := [JBA_VERSION] + Le32(blocks) + Le32(|chunks|) + table + padding + data;
    FileParts(JBA_VERSION, Le32(blocks), Le32(|chunks|), table, padding, data);
    Le32RoundTrip(blocks);
    Le32RoundTrip(|chunks|);
    EntriesReadBack(file, chunks, lookup.value, table);
    return Ok(file);
  }
}
