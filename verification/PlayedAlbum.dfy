/** The pipeline playing a track file: what reaches the decoder under any interleaving is
    what the album builder put in. */
module PlayedAlbum {
  import opened Bytes
  import B = AlbumBuilder
  import L = TrackLookup
  import D = PacketDecoder
  import C = ContainerRoundTrip
  import P = PlaybackPipeline
  import PL = PipelineLaws

  /** A track file as the pipeline sees it. */
  ghost function TrackOf(file: seq<byte>): (t: P.Track)
    requires L.HeaderOk(file)
    ensures |t.bounds| == L.HeaderTableLen(file)
  {
    P.Track(file[L.HeaderDataOffset(file)..],
            seq(L.HeaderTableLen(file), k requires 0 <= k < L.HeaderTableLen(file) =>
                  (L.Entry(file, k) as nat, L.EndOf(file, k))))
  }

  lemma ChunksAgree(file: seq<byte>, k: nat)
    requires L.HeaderOk(file) && k < L.HeaderTableLen(file)
    ensures P.BoundsOk(TrackOf(file), k) <==> L.ChunkOk(file, k)
    ensures L.ChunkOk(file, k) ==> P.ChunkAt(TrackOf(file), k) == C.ChunkBytes(file, k)
  {
    if L.ChunkOk(file, k) {
      SliceOfTail(file, L.HeaderDataOffset(file), L.Entry(file, k), L.EndOf(file, k));
    }
  }

  /** The packets of the chunks decoded from number `k` on. */
  ghost function DecodedPackets(crc: B.Crc, chunks: seq<seq<byte>>, k: nat): seq<B.Packet>
    requires k <= |chunks|
    decreases |chunks| - k
  {
    if k == |chunks| then [] else D.ChunkPackets(crc, chunks[k]) + DecodedPackets(crc, chunks, k + 1)
  }

  lemma DecodedIsFileChunk(file: seq<byte>, chunks: seq<seq<byte>>, k: nat)
    requires L.HeaderOk(file) && |chunks| == L.HeaderTableLen(file) && k < |chunks|
    requires PL.AreChunks(TrackOf(file), 0, chunks)
    ensures L.ChunkOk(file, k) && chunks[k] == C.ChunkBytes(file, k)
  {
    ChunksAgree(file, k);
    assert PL.IsChunk(TrackOf(file), 0 + k, chunks[k]);
  }

  lemma {:induction false} DecodedAreFilePackets(crc: B.Crc, file: seq<byte>, chunks: seq<seq<byte>>, k: nat)
    requires L.TableOk(file) && |chunks| == L.HeaderTableLen(file) && k <= |chunks|
    requires PL.AreChunks(TrackOf(file), 0, chunks)
    ensures DecodedPackets(crc, chunks, k) == C.PacketsFromChunk(crc, file, k)
    decreases |chunks| - k
  {
    if k < |chunks| {
      DecodedIsFileChunk(file, chunks, k);
      C.PacketsFromChunkStep(crc, file, k);
      DecodedAreFilePackets(crc, file, chunks, k + 1);
    }
  }

  /** Under every interleaving: when a track of a built file, started at its first chunk and
      read to its end, comes to the end marker, the packets decoded are exactly the
      builder's non-empty packets, in order. */
  lemma EveryInterleavingPlaysTheAlbum(crc: B.Crc, packets: seq<B.Packet>, file: seq<byte>,
                                       states: seq<P.State>, steps: seq<P.Step>, k: nat)
    requires C.IsBuilt(crc, packets, file) && L.HeaderOk(file)
    requires PL.IsRun(states, steps) && PL.Undisturbed(states, steps) && k < |states|
    requires states[k].track == TrackOf(file) && states[k].from == 0 && states[k].reachedEnd
    requires states[k].decoder.Running? && states[k].queue != [] && states[k].queue[0].Eof?
    ensures DecodedPackets(crc, states[k].consumed, 0) == NonEmpty(packets)
  {
    PL.EofMeansAllDecoded(states, steps, k);
    C.PlayerUndoesBuilder(crc, packets, file);
    DecodedAreFilePackets(crc, file, states[k].consumed, 0);
  }
}
