/** The reader's walk over a track, and the law the container exists for: what the album
    builder writes, the player reads back. */
module ContainerRoundTrip {
  import opened Bytes
  import opened Esp
  import B = AlbumBuilder
  import L = TrackLookup
  import D = PacketDecoder

  /** The bytes of chunk `k` of a file. */
  function ChunkBytes(file: seq<byte>, k: nat): (chunk: seq<byte>)
    requires L.HeaderOk(file) && k < L.HeaderTableLen(file) && L.ChunkOk(file, k)
    ensures 4 < |chunk| <= L.CHUNK_MAX_BYTES
  {
    var data := L.HeaderDataOffset(file);
    file[data + L.Entry(file, k)..data + L.EndOf(file, k)]
  }

  /** The packets of the chunks from `k` on. */
  ghost function PacketsFromChunk(crc: B.Crc, file: seq<byte>, k: nat): seq<B.Packet>
    requires L.TableOk(file) && k <= L.HeaderTableLen(file)
    decreases L.HeaderTableLen(file) - k
  {
    if k == L.HeaderTableLen(file) then []
    else D.ChunkPackets(crc, ChunkBytes(file, k)) + PacketsFromChunk(crc, file, k + 1)
  }

  // ----- The reader's loop -----

  /** `messages` are the bytes of the chunks from `start` on. */
  ghost predicate AreMessages(file: seq<byte>, start: nat, messages: seq<seq<byte>>)
    requires L.HeaderOk(file)
  {
    (messages == [] || start + |messages| <= L.HeaderTableLen(file)) &&
    forall i :: 0 <= i < |messages| ==> IsMessage(file, start + i, messages[i])
  }

  ghost predicate IsMessage(file: seq<byte>, k: nat, message: seq<byte>)
    requires L.HeaderOk(file)
  {
    k < L.HeaderTableLen(file) && L.ChunkOk(file, k) && message == ChunkBytes(file, k)
  }

  lemma AreMessagesOne(file: seq<byte>, start: nat, messages: seq<seq<byte>>, message: seq<byte>)
    requires L.HeaderOk(file) && AreMessages(file, start, messages)
    requires IsMessage(file, start + |messages|, message)
    ensures AreMessages(file, start, messages + [message])
  {
    var all := messages + [message];
    forall i | 0 <= i < |all| ensures IsMessage(file, start + i, all[i]) {
      if i < |messages| {
        assert all[i] == messages[i];
      }
    }
  }

  predicate IsSlice(file: seq<byte>, at: nat, part: seq<byte>) {
    at + |part| <= |file| && part == file[at..at + |part|]
  }

  lemma WindowSliceIsChunk(file: seq<byte>, k: nat, windowStart: nat, rd: seq<byte>)
    requires L.HeaderOk(file) && k < L.HeaderTableLen(file) && L.ChunkOk(file, k)
    requires IsSlice(file, L.HeaderDataOffset(file) + windowStart, rd)
    requires windowStart <= L.Entry(file, k) && L.EndOf(file, k) <= windowStart + |rd|
    ensures rd[L.Entry(file, k) - windowStart..L.EndOf(file, k) - windowStart] == ChunkBytes(file, k)
  {
    var lo := L.HeaderDataOffset(file) + windowStart;
    SliceOfSlice(file, lo, lo + |rd|, L.Entry(file, k) - windowStart, L.EndOf(file, k) - windowStart);
  }

  /** One read of the cartridge: at most 64 KiB, possibly fewer than are there. */
  method ReadBuffer(file: seq<byte>, at: nat, ioWorks: bool) returns (rd: seq<byte>)
    requires at <= |file|
    ensures IsSlice(file, at, rd) && |rd| <= L.READ_BUF_SIZE
    ensures ioWorks ==> |rd| == L.READ_BUF_SIZE || at + |rd| == |file|
  {
    var available := |file| - at;
    var most := if available < L.READ_BUF_SIZE then available else L.READ_BUF_SIZE;
    var length: nat :| length <= most && (ioWorks ==> length == most);
    rd := file[at..at + length];
  }

  /** Chunk bounds through the lookup window; with `ioWorks` the table can be read. */
  method ResolveChunk(info: L.TrackInfo, chunk: nat, ioWorks: bool) returns (err: Err, start: nat, end: nat)
    requires info.Valid() && chunk < info.tableLen
    modifies info`windowStart, info`windowEntryCount, info.window
    ensures info.Valid()
    ensures err == OK ==> L.ChunkOk(info.file, chunk) &&
                          start == L.Entry(info.file, chunk) && end == L.EndOf(info.file, chunk)
    ensures ioWorks && L.TableOk(info.file) ==> err == OK
  {
    var io: L.WindowIo := *;
    if ioWorks {
      io := L.WindowIo(false, true, true, 4 * L.WindowCount(info.tableLen, chunk), false);
    }
    err, start, end := info.GetChunkBounds(chunk, io);
  }

  /** The buffer the reader holds: where in the audio area it starts, and its bytes. */
  datatype Checkout = NoBuffer | Buffer(start: nat, bytes: seq<byte>)

  predicate CheckoutOf(file: seq<byte>, held: Checkout)
    requires L.HeaderOk(file)
  {
    held.Buffer? ==> IsSlice(file, L.HeaderDataOffset(file) + held.start, held.bytes)
  }

  /** One turn of the reader's loop: the chunk out of the buffer held, or out of a new one. */
  method NextMessage(file: seq<byte>, dataOffset: nat, ghost chunk: nat, chunkStart: nat, chunkEnd: nat,
                     held: Checkout, ioWorks: bool)
    returns (ok: bool, message: seq<byte>, now: Checkout)
    requires L.HeaderOk(file) && chunk < L.HeaderTableLen(file) && L.ChunkOk(file, chunk)
    requires dataOffset == L.HeaderDataOffset(file)
    requires chunkStart == L.Entry(file, chunk) && chunkEnd == L.EndOf(file, chunk)
    requires CheckoutOf(file, held)
    ensures CheckoutOf(file, now)
    ensures ok ==> message == ChunkBytes(file, chunk)
    ensures ioWorks ==> ok
  {
    now := held;
    if held.NoBuffer? || chunkStart < held.start || chunkEnd > held.start + |held.bytes| {
      ChunkInside(file, chunk);
      var rd := ReadBuffer(file, dataOffset + chunkStart, ioWorks);
      now := Buffer(chunkStart, rd);
      if |rd| < chunkEnd - chunkStart {
        return false, [], now;
      }
    }
    WindowSliceIsChunk(file, chunk, now.start, now.bytes);
    return true, now.bytes[chunkStart - now.start..chunkEnd - now.start], now;
  }

  /** A chunk is inside the file and fits one read. */
  lemma ChunkInside(file: seq<byte>, chunk: nat)
    requires L.HeaderOk(file) && chunk < L.HeaderTableLen(file) && L.ChunkOk(file, chunk)
    ensures L.Entry(file, chunk) <= L.EndOf(file, chunk)
    ensures L.HeaderDataOffset(file) + L.EndOf(file, chunk) <= |file|
    ensures L.EndOf(file, chunk) - L.Entry(file, chunk) <= L.READ_BUF_SIZE
  {
  }

  /** The reader's loop without its queue: chunk bounds come through the lookup window,
      chunk bytes out of 64 KiB reads that later chunks reuse while they fit. With
      `ioWorks` every access succeeds; otherwise any of them may fail and end the walk. */
  method ReadChunks(info: L.TrackInfo, startChunk: nat, ioWorks: bool) returns (messages: seq<seq<byte>>)
    requires info.Valid() && info.tableLen > 0
    modifies info`windowStart, info`windowEntryCount, info.window
    ensures info.Valid()
    ensures AreMessages(info.file, startChunk, messages)
    ensures ioWorks && L.TableOk(info.file) && startChunk < info.tableLen ==>
              |messages| == info.tableLen - startChunk
  {
    messages := [];
    if startChunk >= info.tableLen {
      return;
    }
    var file := info.file;
    var held := NoBuffer;
    for chunkIndex := startChunk to info.tableLen
      invariant info.Valid()
      invariant |messages| == chunkIndex - startChunk && AreMessages(file, startChunk, messages)
      invariant CheckoutOf(file, held)
    {
      var err, chunkStart, chunkEnd := ResolveChunk(info, chunkIndex, ioWorks);
      if err != OK {
        return;
      }
      var ok, message;
      ok, message, held := NextMessage(file, info.dataOffset, chunkIndex, chunkStart, chunkEnd, held, ioWorks);
      if !ok {
        return;
      }
      AreMessagesOne(file, startChunk, messages, message);
      messages := messages + [message];
    }
  }

  // ----- A built file passes every check -----

  lemma {:induction false} TotalSize(chunks: seq<seq<byte>>)
    requires forall i :: 0 <= i < |chunks| ==> |chunks[i]| <= B.MAX_CHUNK_BYTES
    ensures |Concat(chunks)| <= |chunks| * B.MAX_CHUNK_BYTES
  {
    if chunks != [] {
      TotalSize(chunks[1..]);
    }
  }

  lemma BuiltHeader(file: seq<byte>, chunks: seq<seq<byte>>)
    requires 0 < |chunks| <= L.MAX_LOOKUP_ENTRIES && B.IsJba(file, chunks)
    requires forall i :: 0 <= i < |chunks| ==> 4 < |chunks[i]| <= B.MAX_CHUNK_BYTES
    ensures L.HeaderOk(file) && L.HeaderTableLen(file) == |chunks|
    ensures L.HeaderDataOffset(file) == B.HeaderBlocks(|chunks|) * B.HEADER_BLOCK_SIZE
    ensures L.DataBytes(file) == |Concat(chunks)|
  {
    TotalSize(chunks);
    assert B.HeaderBlocks(|chunks|) * B.HEADER_BLOCK_SIZE <= 9 + 4 * |chunks| + 511;
  }

  /** Where a chunk lies among all of them. */
  lemma ChunkInData(chunks: seq<seq<byte>>, k: nat)
    requires k < |chunks|
    ensures B.Offset(chunks, k) <= B.Offset(chunks, k + 1) <= |Concat(chunks)|
    ensures Concat(chunks)[B.Offset(chunks, k)..B.Offset(chunks, k + 1)] == chunks[k]
  {
    B.OffsetNext(chunks, k);
    var before, after := Concat(chunks[..k]), Concat(chunks[k + 1..]);
    assert chunks == chunks[..k + 1] + chunks[k + 1..];
    assert chunks[..k + 1] == chunks[..k] + [chunks[k]];
    ConcatSplit(chunks[..k + 1], chunks[k + 1..]);
    ConcatOne(chunks[..k], chunks[k]);
    assert Concat(chunks) == before + chunks[k] + after;
  }

  lemma BuiltChunk(file: seq<byte>, chunks: seq<seq<byte>>, k: nat)
    requires k < |chunks| <= L.MAX_LOOKUP_ENTRIES && B.IsJba(file, chunks)
    requires forall i :: 0 <= i < |chunks| ==> 4 < |chunks[i]| <= B.MAX_CHUNK_BYTES
    ensures L.HeaderOk(file) && L.HeaderTableLen(file) == |chunks|
    ensures L.ChunkOk(file, k) && L.Entry(file, k) == B.Offset(chunks, k)
    ensures ChunkBytes(file, k) == chunks[k]
  {
    BuiltHeader(file, chunks);
    B.OffsetNext(chunks, k);
    B.OffsetWhole(chunks);
    var start, end := B.Offset(chunks, k), B.Offset(chunks, k + 1);
    assert L.EndOf(file, k) == end;
    ChunkInData(chunks, k);
    SliceOfTail(file, L.HeaderDataOffset(file), start, end);
  }

  // ----- Chunks and packets -----

  lemma ChunkYieldsGroup(crc: B.Crc, group: seq<B.Packet>)
    requires B.Encodable(group) && B.ChunkFits(group) && group != []
    ensures D.ChunkPackets(crc, B.ChunkOf(crc, group)) == NonEmpty(group)
    ensures |B.ChunkOf(crc, group)| > 4
  {
    var payload := B.Payload(group);
    var chunk := B.ChunkOf(crc, group);
    assert payload == B.Framed(group[0]) + B.Payload(group[1..]);
    assert chunk[4..] == payload && chunk[..4] == Le32(crc(payload));
    Le32RoundTrip(crc(payload));
    D.FramesOfPayload(group);
  }

  /** The packets of the seconds from `k` on. */
  function FromSecond(packets: seq<B.Packet>, k: nat): seq<B.Packet> {
    var start := k * B.PACKETS_PER_CHUNK;
    if start <= |packets| then packets[start..] else []
  }

  lemma NonEmptyByGroup(packets: seq<B.Packet>, k: nat)
    requires k < B.GroupCount(packets)
    ensures NonEmpty(FromSecond(packets, k)) ==
            NonEmpty(B.Group(packets, k)) + NonEmpty(FromSecond(packets, k + 1))
  {
    assert FromSecond(packets, k) == B.Group(packets, k) + FromSecond(packets, k + 1);
    NonEmptySplit(B.Group(packets, k), FromSecond(packets, k + 1));
  }

  ghost predicate IsBuilt(crc: B.Crc, packets: seq<B.Packet>, file: seq<byte>) {
    B.Buildable(packets) && 0 < B.GroupCount(packets) <= L.MAX_LOOKUP_ENTRIES &&
    exists chunks ::
      B.AreChunksOf(crc, packets, chunks) && |chunks| == B.GroupCount(packets) && B.IsJba(file, chunks)
  }

  lemma ChunksAreSized(crc: B.Crc, packets: seq<B.Packet>, chunks: seq<seq<byte>>)
    requires B.Buildable(packets) && B.AreChunksOf(crc, packets, chunks)
    requires |chunks| == B.GroupCount(packets)
    ensures forall i :: 0 <= i < |chunks| ==> 4 < |chunks[i]| <= B.MAX_CHUNK_BYTES
  {
    forall i | 0 <= i < |chunks| ensures 4 < |chunks[i]| <= B.MAX_CHUNK_BYTES {
      ChunkYieldsGroup(crc, B.Group(packets, i));
    }
  }

  lemma ChunkOfBuilt(crc: B.Crc, packets: seq<B.Packet>, chunks: seq<seq<byte>>, file: seq<byte>, k: nat)
    requires B.Buildable(packets) && 0 < B.GroupCount(packets) <= L.MAX_LOOKUP_ENTRIES
    requires B.AreChunksOf(crc, packets, chunks) && |chunks| == B.GroupCount(packets)
    requires B.IsJba(file, chunks) && k < B.GroupCount(packets)
    ensures L.HeaderOk(file) && L.HeaderTableLen(file) == |chunks|
    ensures L.ChunkOk(file, k) && ChunkBytes(file, k) == chunks[k]
    ensures k == 0 ==> L.Entry(file, k) == 0
  {
    ChunksAreSized(crc, packets, chunks);
    BuiltChunk(file, chunks, k);
    assert chunks[..0] == [];
  }

  lemma BuiltFileChunk(crc: B.Crc, packets: seq<B.Packet>, file: seq<byte>, k: nat)
    requires IsBuilt(crc, packets, file) && k < B.GroupCount(packets)
    ensures L.HeaderOk(file) && L.HeaderTableLen(file) == B.GroupCount(packets)
    ensures L.ChunkOk(file, k) && (k == 0 ==> L.Entry(file, k) == 0)
    ensures D.ChunkPackets(crc, ChunkBytes(file, k)) == NonEmpty(B.Group(packets, k))
  {
    var chunks :| B.AreChunksOf(crc, packets, chunks) && |chunks| == B.GroupCount(packets) &&
                  B.IsJba(file, chunks);
    ChunkOfBuilt(crc, packets, chunks, file, k);
    ChunkYieldsGroup(crc, B.Group(packets, k));
  }

  lemma PacketsFromChunkStep(crc: B.Crc, file: seq<byte>, k: nat)
    requires L.TableOk(file) && k < L.HeaderTableLen(file)
    ensures PacketsFromChunk(crc, file, k) ==
            D.ChunkPackets(crc, ChunkBytes(file, k)) + PacketsFromChunk(crc, file, k + 1)
  {
  }

  /** The file holds one chunk for each second of the packets. */
  ghost predicate Pairs(packets: seq<B.Packet>, file: seq<byte>) {
    L.TableOk(file) && L.HeaderTableLen(file) == B.GroupCount(packets)
  }

  /** Every chunk decodes to the non-empty packets of its second. */
  ghost predicate SecondsDecode(crc: B.Crc, packets: seq<B.Packet>, file: seq<byte>)
    requires Pairs(packets, file)
  {
    forall k :: 0 <= k < B.GroupCount(packets) ==>
      D.ChunkPackets(crc, ChunkBytes(file, k)) == NonEmpty(B.Group(packets, k))
  }

  /** From chunk `k` on the file decodes to the packets from second `k` on. */
  ghost predicate AgreeFrom(crc: B.Crc, packets: seq<B.Packet>, file: seq<byte>, k: nat)
    requires Pairs(packets, file) && k <= B.GroupCount(packets)
  {
    PacketsFromChunk(crc, file, k) == NonEmpty(FromSecond(packets, k))
  }

  lemma AgreeAtEnd(crc: B.Crc, packets: seq<B.Packet>, file: seq<byte>)
    requires Pairs(packets, file)
    ensures AgreeFrom(crc, packets, file, B.GroupCount(packets))
  {
    assert FromSecond(packets, B.GroupCount(packets)) == [];
  }

  lemma AgreeOneEarlier(crc: B.Crc, packets: seq<B.Packet>, file: seq<byte>, k: nat)
    requires Pairs(packets, file) && SecondsDecode(crc, packets, file)
    requires k < B.GroupCount(packets) && AgreeFrom(crc, packets, file, k + 1)
    ensures AgreeFrom(crc, packets, file, k)
  {
    PacketsFromChunkStep(crc, file, k);
    NonEmptyByGroup(packets, k);
  }

  /** What holds at the end, and one place earlier whenever it holds, holds throughout. */
  lemma {:induction false} Backwards(holds: nat -> bool, n: nat, k: nat)
    requires k <= n && holds(n)
    requires forall i: nat :: i < n && holds(i + 1) ==> holds(i)
    ensures holds(k)
    decreases n - k
  {
    if k < n {
      Backwards(holds, n, k + 1);
    }
  }

  lemma AgreeThroughout(crc: B.Crc, packets: seq<B.Packet>, file: seq<byte>)
    requires Pairs(packets, file) && SecondsDecode(crc, packets, file)
    ensures AgreeFrom(crc, packets, file, 0)
  {
    var agree := (k: nat) => k <= B.GroupCount(packets) && AgreeFrom(crc, packets, file, k);
    AgreeAtEnd(crc, packets, file);
    forall k: nat | k < B.GroupCount(packets) && agree(k + 1) ensures agree(k) {
      AgreeOneEarlier(crc, packets, file, k);
    }
    Backwards(agree, B.GroupCount(packets), 0);
  }

  /** A built file passes the player's checks. */
  lemma BuiltTable(crc: B.Crc, packets: seq<B.Packet>, file: seq<byte>)
    requires IsBuilt(crc, packets, file)
    ensures Pairs(packets, file)
  {
    forall k | 0 <= k < B.GroupCount(packets)
      ensures L.HeaderOk(file) && L.HeaderTableLen(file) == B.GroupCount(packets) && L.ChunkOk(file, k)
    {
      BuiltFileChunk(crc, packets, file, k);
    }
    BuiltFileChunk(crc, packets, file, 0);
  }

  /** The container law: for every packet list the builder accepts and the player's table
      cap admits, the player accepts the file and decodes exactly the builder's non-empty
      packets, in order. */
  lemma PlayerUndoesBuilder(crc: B.Crc, packets: seq<B.Packet>, file: seq<byte>)
    requires IsBuilt(crc, packets, file)
    ensures L.TableOk(file)
    ensures PacketsFromChunk(crc, file, 0) == NonEmpty(packets)
  {
    BuiltTable(crc, packets, file);
    forall k | 0 <= k < B.GroupCount(packets)
      ensures D.ChunkPackets(crc, ChunkBytes(file, k)) == NonEmpty(B.Group(packets, k))
    {
      BuiltFileChunk(crc, packets, file, k);
    }
    AgreeThroughout(crc, packets, file);
    assert FromSecond(packets, 0) == packets;
  }

  lemma {:induction false} KeepsNonEmpty(packets: seq<B.Packet>)
    requires forall i :: 0 <= i < |packets| ==> packets[i] != []
    ensures NonEmpty(packets) == packets
  {
    if packets != [] {
      KeepsNonEmpty(packets[1..]);
    }
  }

  lemma DecodedOne(crc: B.Crc, file: seq<byte>, messages: seq<seq<byte>>, i: nat,
                   packets: seq<B.Packet>, decoded: seq<B.Packet>)
    requires L.TableOk(file) && |messages| == L.HeaderTableLen(file) && i < |messages|
    requires AreMessages(file, 0, messages) && decoded == D.ChunkPackets(crc, messages[i])
    ensures packets + PacketsFromChunk(crc, file, i) ==
            packets + decoded + PacketsFromChunk(crc, file, i + 1)
  {
    PacketsFromChunkStep(crc, file, i);
    var rest := PacketsFromChunk(crc, file, i + 1);
    assert packets + (decoded + rest) == packets + decoded + rest;
  }

  method DecodeAll(crc: B.Crc, file: seq<byte>, messages: seq<seq<byte>>) returns (packets: seq<B.Packet>)
    requires L.TableOk(file) && |messages| == L.HeaderTableLen(file)
    requires AreMessages(file, 0, messages)
    ensures packets == PacketsFromChunk(crc, file, 0)
  {
    packets := [];
    for i := 0 to |messages|
      invariant packets + PacketsFromChunk(crc, file, i) == PacketsFromChunk(crc, file, 0)
    {
      var decoded := D.DecodeChunk(crc, messages[i]);
      DecodedOne(crc, file, messages, i, packets, decoded);
      packets := packets + decoded;
    }
  }

  /** Builder and player end to end. A packet list is refused by the builder, or too long
      for the player, or comes out of the player as it went in. */
  method BuildAndPlay(crc: B.Crc, packets: seq<B.Packet>) returns (played: seq<B.Packet>, accepted: bool)
    requires forall i :: 0 <= i < |packets| ==> packets[i] != []
    ensures accepted ==> played == packets
    ensures packets != [] && B.Buildable(packets) && B.GroupCount(packets) <= L.MAX_LOOKUP_ENTRIES ==> accepted
  {
    played, accepted := [], false;
    var chunks := B.BuildChunks(crc, packets);
    if chunks.Err? {
      return;
    }
    if 0 < |chunks.value| <= L.MAX_LOOKUP_ENTRIES {
      SizeFits(crc, packets, chunks.value);
    }
    var built := B.BuildJba(chunks.value);
    if built.Err? {
      return;
    }
    var file := built.value;
    var info := new L.TrackInfo();
    var firstRead := if |file| < L.READ_BUF_SIZE then |file| else L.READ_BUF_SIZE;
    var err := info.LoadTrackInfo(file, L.Reads(firstRead, true));
    if err != OK || |chunks.value| > L.MAX_LOOKUP_ENTRIES {
      if |chunks.value| <= L.MAX_LOOKUP_ENTRIES {
        assert IsBuilt(crc, packets, file);
        PlayerUndoesBuilder(crc, packets, file);
        assert false;
      }
      return;
    }
    assert IsBuilt(crc, packets, file);
    PlayerUndoesBuilder(crc, packets, file);
    var messages := ReadChunks(info, 0, true);
    played := DecodeAll(crc, file, messages);
    KeepsNonEmpty(packets);
    accepted := true;
  }

  lemma SizeFits(crc: B.Crc, packets: seq<B.Packet>, chunks: seq<seq<byte>>)
    requires B.Buildable(packets) && B.AreChunksOf(crc, packets, chunks)
    requires |chunks| <= L.MAX_LOOKUP_ENTRIES
    ensures B.FileSize(chunks) < L.LONG_LIMIT
  {
    forall i | 0 <= i < |chunks| ensures |chunks[i]| <= B.MAX_CHUNK_BYTES {
      assert B.ChunkFits(B.Group(packets, i));
    }
    TotalSize(chunks);
  }
}
