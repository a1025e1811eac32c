/** A built file some of whose chunks were damaged on the cartridge: the player skips exactly
    those seconds. */
module DamagedAlbum {
  import opened Bytes
  import B = AlbumBuilder
  import L = TrackLookup
  import D = PacketDecoder
  import C = ContainerRoundTrip
  import P = PlaybackPipeline
  import PL = PipelineLaws
  import PA = PlayedAlbum

  /** The bytes where `file` has its chunk `k`. */
  ghost function CutOut(file: seq<byte>, bytes: seq<byte>, k: nat): (chunk: seq<byte>)
    requires L.TableOk(file) && |bytes| == |file| && k < L.HeaderTableLen(file)
    ensures |chunk| > 4
  {
    assert L.ChunkOk(file, k);
    var data := L.HeaderDataOffset(file);
    bytes[data + L.Entry(file, k)..data + L.EndOf(file, k)]
  }

  /** Header and table are the same, each chunk in `hit` fails its CRC, and every other chunk is
      the same. */
  ghost predicate IsDamaged(crc: B.Crc, file: seq<byte>, damaged: seq<byte>, hit: set<nat>)
    requires L.TableOk(file)
  {
    && |damaged| == |file| && damaged[..L.HeaderDataOffset(file)] == file[..L.HeaderDataOffset(file)]
    && forall k :: 0 <= k < L.HeaderTableLen(file) ==>
         if k in hit then Broken(crc, CutOut(file, damaged, k))
         else CutOut(file, damaged, k) == CutOut(file, file, k)
  }

  ghost predicate Broken(crc: B.Crc, chunk: seq<byte>)
    requires |chunk| > 4
  {
    crc(chunk[4..]) != FromLe32(chunk[..4])
  }

  lemma SameEntries(file: seq<byte>, damaged: seq<byte>, k: nat)
    requires L.HeaderOk(file) && |damaged| == |file|
    requires damaged[..L.HeaderDataOffset(file)] == file[..L.HeaderDataOffset(file)]
    ensures L.HeaderOk(damaged) && L.HeaderTableLen(damaged) == L.HeaderTableLen(file)
    ensures L.HeaderDataOffset(damaged) == L.HeaderDataOffset(file)
    ensures k < L.HeaderTableLen(file) ==> L.Entry(damaged, k) == L.Entry(file, k)
  {
    var data := L.HeaderDataOffset(file);
    assert damaged[0] == damaged[..data][0] && file[0] == file[..data][0];
    assert damaged[1..5] == damaged[..data][1..5] && file[1..5] == file[..data][1..5];
    assert damaged[5..9] == damaged[..data][5..9] && file[5..9] == file[..data][5..9];
    if k < L.HeaderTableLen(file) {
      SliceOfSlice(damaged, 0, data, 9 + 4 * k, 13 + 4 * k);
      SliceOfSlice(file, 0, data, 9 + 4 * k, 13 + 4 * k);
    }
  }

  lemma SameTable(file: seq<byte>, damaged: seq<byte>)
    requires L.TableOk(file) && |damaged| == |file|
    requires damaged[..L.HeaderDataOffset(file)] == file[..L.HeaderDataOffset(file)]
    ensures L.TableOk(damaged) && L.HeaderTableLen(damaged) == L.HeaderTableLen(file)
    ensures L.HeaderDataOffset(damaged) == L.HeaderDataOffset(file)
    ensures forall k :: 0 <= k < L.HeaderTableLen(file) ==>
              L.Entry(damaged, k) == L.Entry(file, k) && L.EndOf(damaged, k) == L.EndOf(file, k)
  {
    SameEntries(file, damaged, 0);
    forall k | 0 <= k < L.HeaderTableLen(file)
      ensures L.Entry(damaged, k) == L.Entry(file, k) && L.EndOf(damaged, k) == L.EndOf(file, k)
    {
      SameEntries(file, damaged, k);
      SameEntries(file, damaged, k + 1);
    }
    forall k | 0 <= k < L.HeaderTableLen(file) ensures L.ChunkOk(damaged, k) {
      assert L.ChunkOk(file, k);
    }
  }

  lemma SameBounds(file: seq<byte>, damaged: seq<byte>, k: nat)
    requires L.TableOk(file) && L.TableOk(damaged) && |damaged| == |file|
    requires k < L.HeaderTableLen(file) == L.HeaderTableLen(damaged)
    requires L.HeaderDataOffset(damaged) == L.HeaderDataOffset(file)
    requires L.Entry(damaged, k) == L.Entry(file, k) && L.EndOf(damaged, k) == L.EndOf(file, k)
    ensures L.ChunkOk(damaged, k) && C.ChunkBytes(damaged, k) == CutOut(file, damaged, k)
  {
    assert L.ChunkOk(damaged, k);
  }

  /** What is left of second `k`. */
  ghost function LeftOf(packets: seq<B.Packet>, hit: set<nat>, k: nat): seq<B.Packet>
    requires k < B.GroupCount(packets)
  {
    if k in hit then [] else NonEmpty(B.Group(packets, k))
  }

  /** What is left, second by second. */
  ghost function Left(packets: seq<B.Packet>, hit: set<nat>): (left: seq<seq<B.Packet>>)
    ensures |left| == B.GroupCount(packets)
  {
    seq(B.GroupCount(packets), k requires 0 <= k < B.GroupCount(packets) => LeftOf(packets, hit, k))
  }

  /** One chunk of the damaged file. */
  lemma DamagedChunk(crc: B.Crc, packets: seq<B.Packet>, file: seq<byte>, damaged: seq<byte>, hit: set<nat>, k: nat)
    requires C.IsBuilt(crc, packets, file) && L.TableOk(file) && IsDamaged(crc, file, damaged, hit)
    requires k < B.GroupCount(packets)
    ensures L.TableOk(damaged) && k < L.HeaderTableLen(damaged)
    ensures D.ChunkPackets(crc, C.ChunkBytes(damaged, k)) == LeftOf(packets, hit, k)
  {
    C.BuiltFileChunk(crc, packets, file, k);
    SameTable(file, damaged);
    SameBounds(file, damaged, k);
    SameBounds(file, file, k);
    if k in hit {
      assert Broken(crc, CutOut(file, damaged, k));
      D.ChunkPacketsChecked(crc, C.ChunkBytes(damaged, k));
    } else {
      assert CutOut(file, damaged, k) == CutOut(file, file, k);
    }
  }

  // ----- The whole file -----

  /** The packets of each chunk of a file. */
  ghost predicate ChunksYield(crc: B.Crc, file: seq<byte>, parts: seq<seq<B.Packet>>)
    requires L.TableOk(file)
  {
    |parts| == L.HeaderTableLen(file) &&
    forall k :: 0 <= k < |parts| ==> parts[k] == D.ChunkPackets(crc, C.ChunkBytes(file, k))
  }

  ghost predicate YieldsFrom(crc: B.Crc, file: seq<byte>, parts: seq<seq<B.Packet>>, k: nat)
    requires L.TableOk(file) && k <= |parts| == L.HeaderTableLen(file)
  {
    C.PacketsFromChunk(crc, file, k) == Concat(parts[k..])
  }

  lemma YieldsOneEarlier(crc: B.Crc, file: seq<byte>, parts: seq<seq<B.Packet>>, k: nat)
    requires L.TableOk(file) && ChunksYield(crc, file, parts) && k < |parts| && YieldsFrom(crc, file, parts, k + 1)
    ensures YieldsFrom(crc, file, parts, k)
  {
    C.PacketsFromChunkStep(crc, file, k);
    assert parts[k..][0] == parts[k] && parts[k..][1..] == parts[k + 1..];
  }

  /** A file decodes to the packets of its chunks. */
  lemma FileYields(crc: B.Crc, file: seq<byte>, parts: seq<seq<B.Packet>>)
    requires L.TableOk(file) && ChunksYield(crc, file, parts)
    ensures C.PacketsFromChunk(crc, file, 0) == Concat(parts)
  {
    var agree := (k: nat) => k <= |parts| && YieldsFrom(crc, file, parts, k);
    assert parts[|parts|..] == [] && parts[0..] == parts;
    forall k: nat | k < |parts| && agree(k + 1) ensures agree(k) {
      YieldsOneEarlier(crc, file, parts, k);
    }
    C.Backwards(agree, |parts|, 0);
  }

  /** Damage stays in its chunks: the player accepts the file and decodes the packets of every
      second that was not hit, all of them and in order, and nothing else. */
  lemma DamageStaysInItsChunks(crc: B.Crc, packets: seq<B.Packet>, file: seq<byte>, damaged: seq<byte>, hit: set<nat>)
    requires C.IsBuilt(crc, packets, file) && L.TableOk(file) && IsDamaged(crc, file, damaged, hit)
    ensures L.TableOk(damaged)
    ensures C.PacketsFromChunk(crc, damaged, 0) == Concat(Left(packets, hit))
  {
    C.BuiltTable(crc, packets, file);
    SameTable(file, damaged);
    forall k | 0 <= k < B.GroupCount(packets)
      ensures Left(packets, hit)[k] == D.ChunkPackets(crc, C.ChunkBytes(damaged, k))
    {
      DamagedChunk(crc, packets, file, damaged, hit, k);
    }
    FileYields(crc, damaged, Left(packets, hit));
  }

  // ----- One damaged chunk -----

  /** Undamaged, the seconds together are all the packets. */
  lemma NothingHit(crc: B.Crc, packets: seq<B.Packet>, file: seq<byte>)
    requires C.IsBuilt(crc, packets, file)
    ensures Concat(Left(packets, {})) == NonEmpty(packets)
  {
    C.PlayerUndoesBuilder(crc, packets, file);
    DamageStaysInItsChunks(crc, packets, file, file, {});
  }

  lemma {:induction false} ConcatWithout<T>(parts: seq<seq<T>>, j: nat)
    requires j < |parts|
    ensures Concat(parts[j := []]) == Concat(parts[..j]) + Concat(parts[j + 1..])
    ensures Concat(parts) == Concat(parts[..j]) + parts[j] + Concat(parts[j + 1..])
  {
    assert parts[j := []] == parts[..j] + [[]] + parts[j + 1..] && parts == parts[..j] + [parts[j]] + parts[j + 1..];
    ConcatSplit(parts[..j] + [[]], parts[j + 1..]);
    ConcatSplit(parts[..j] + [parts[j]], parts[j + 1..]);
    ConcatOne(parts[..j], []);
    ConcatOne(parts[..j], parts[j]);
    assert Concat(parts[..j]) + [] == Concat(parts[..j]);
  }

  lemma OneHit(packets: seq<B.Packet>, j: nat)
    requires j < B.GroupCount(packets)
    ensures Left(packets, {j}) == Left(packets, {})[j := []]
    ensures Left(packets, {})[j] == NonEmpty(B.Group(packets, j))
  {
  }

  /** With chunk `j` damaged, the packets of second `j` are cut out of the album's, and all others
      are played. */
  lemma OneDamagedChunk(crc: B.Crc, packets: seq<B.Packet>, file: seq<byte>, damaged: seq<byte>, j: nat)
    returns (before: seq<B.Packet>, after: seq<B.Packet>)
    requires C.IsBuilt(crc, packets, file) && L.TableOk(file) && IsDamaged(crc, file, damaged, {j})
    requires j < B.GroupCount(packets)
    ensures NonEmpty(packets) == before + NonEmpty(B.Group(packets, j)) + after
    ensures L.TableOk(damaged) && C.PacketsFromChunk(crc, damaged, 0) == before + after
  {
    var whole := Left(packets, {});
    before, after := Concat(whole[..j]), Concat(whole[j + 1..]);
    NothingHit(crc, packets, file);
    DamageStaysInItsChunks(crc, packets, file, damaged, {j});
    OneHit(packets, j);
    ConcatWithout(whole, j);
  }

  // ----- The pipeline -----

  /** Under every interleaving in which no task takes its command between idle test and reset:
      a damaged file read to its end is decoded to what is left of it. */
  lemma EveryInterleavingSkipsDamage(crc: B.Crc, packets: seq<B.Packet>, file: seq<byte>, damaged: seq<byte>,
                                     hit: set<nat>, states: seq<P.State>, steps: seq<P.Step>, k: nat)
    requires C.IsBuilt(crc, packets, file) && L.TableOk(file) && IsDamaged(crc, file, damaged, hit)
    requires PL.IsRun(states, steps) && PL.Undisturbed(states, steps) && k < |states| && L.HeaderOk(damaged)
    requires states[k].track == PA.TrackOf(damaged) && states[k].from == 0 && states[k].reachedEnd
    requires states[k].decoder.Running? && states[k].queue != [] && states[k].queue[0].Eof?
    ensures PA.DecodedPackets(crc, states[k].consumed, 0) == Concat(Left(packets, hit))
  {
    PL.EofMeansAllDecoded(states, steps, k);
    DamageStaysInItsChunks(crc, packets, file, damaged, hit);
    PA.DecodedAreFilePackets(crc, damaged, states[k].consumed, 0);
  }
}
