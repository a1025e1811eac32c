/** How the companion link finds its way back to frames: noise between frames, headers it
    cannot accept, and a buffer that was reset. */
module CompanionResync {
  import opened Bytes
  import opened CompanionFrames

  ghost function Skips(n: nat): seq<Event> {
    seq(n, _ => SkippedByte)
  }

  ghost predicate MagicAt(b: seq<byte>, i: nat)
    requires i + 1 < |b|
  {
    b[i] == MAGIC0 && b[i + 1] == MAGIC1
  }

  /** No byte of `noise` can be taken for the start of a frame. */
  ghost predicate NoMagicIn(noise: seq<byte>, behind: seq<byte>)
    requires behind != []
  {
    forall i :: 0 <= i < |noise| ==> !MagicAt(noise + behind, i)
  }

  // ----- Noise -----

  lemma NoiseTail(noise: seq<byte>, behind: seq<byte>)
    requires noise != [] && behind != [] && NoMagicIn(noise, behind)
    ensures NoMagicIn(noise[1..], behind)
  {
    forall i | 0 <= i < |noise[1..]| ensures !MagicAt(noise[1..] + behind, i) {
      assert !MagicAt(noise + behind, i + 1);
    }
  }

  /** Noise is given up byte by byte, and what is behind it is parsed as if it came first. */
  lemma {:induction false} NoiseIsSkipped(noise: seq<byte>, behind: seq<byte>)
    requires |behind| >= HEADER_LEN - 1 && NoMagicIn(noise, behind)
    ensures Parse(noise + behind) == (Skips(|noise|) + Parse(behind).0, Parse(behind).1)
  {
    var all := noise + behind;
    if noise == [] {
      assert all == behind && Skips(0) + Parse(behind).0 == Parse(behind).0;
    } else {
      assert !MagicAt(all, 0);
      assert all[1..] == noise[1..] + behind;
      NoiseTail(noise, behind);
      NoiseIsSkipped(noise[1..], behind);
      assert Skips(|noise|) == [SkippedByte] + Skips(|noise| - 1);
      Assoc([SkippedByte], Skips(|noise| - 1), Parse(behind).0);
    }
  }

  /** A frame that seems to start inside the noise is not skipped. */
  lemma {:induction false} MagicIsTaken(noise: seq<byte>, behind: seq<byte>, i: nat) returns (k: nat)
    requires |behind| >= HEADER_LEN - 1 && i < |noise| && MagicAt(noise + behind, i)
    ensures k <= i && (k < |Parse(noise + behind).0| ==> Parse(noise + behind).0[k] != SkippedByte)
  {
    var all := noise + behind;
    k := 0;
    if i > 0 && !MagicAt(all, 0) {
      assert all[1..] == noise[1..] + behind;
      k := MagicIsTaken(noise[1..], behind, i - 1);
      assert Parse(all).0 == [SkippedByte] + Parse(all[1..]).0;
      k := k + 1;
    }
  }

  lemma MagicSpoils(noise: seq<byte>, behind: seq<byte>, events: seq<Event>)
    requires |behind| >= HEADER_LEN - 1 && !NoMagicIn(noise, behind)
    ensures Parse(noise + behind).0 != Skips(|noise|) + events
  {
    var i :| 0 <= i < |noise| && MagicAt(noise + behind, i);
    var k := MagicIsTaken(noise, behind, i);
    assert (Skips(|noise|) + events)[k] == SkippedByte;
  }

  lemma WireNotEmpty(frames: seq<Frame>)
    requires AllFit(frames) && frames != []
    ensures |Wire(frames)| >= HEADER_LEN
  {
  }

  /** Resynchronisation: all the noise is skipped, one event a byte, and every frame behind
      it comes back, if and only if the magic does not appear to start inside the noise. */
  lemma Resynchronises(noise: seq<byte>, frames: seq<Frame>)
    requires AllFit(frames) && frames != []
    ensures Parse(noise + Wire(frames)) == (Skips(|noise|) + Events(frames), []) <==>
            NoMagicIn(noise, Wire(frames))
  {
    WireNotEmpty(frames);
    SentFramesParse(frames);
    if NoMagicIn(noise, Wire(frames)) {
      NoiseIsSkipped(noise, Wire(frames));
    } else {
      MagicSpoils(noise, Wire(frames), Events(frames));
    }
  }

  // ----- Noise and chunks -----

  /** In noise less than a header waits. */
  lemma {:induction false} NoiseWaits(noise: seq<byte>, behind: seq<byte>, n: nat)
    requires |behind| >= HEADER_LEN - 1 && NoMagicIn(noise, behind) && n < |noise| + HEADER_LEN
    requires n <= |noise + behind|
    ensures |Parse((noise + behind)[..n]).1| < HEADER_LEN
    decreases n
  {
    var prefix := (noise + behind)[..n];
    if n >= HEADER_LEN {
      assert !MagicAt(noise + behind, 0);
      assert prefix[1..] == (noise[1..] + behind)[..n - 1];
      NoiseTail(noise, behind);
      NoiseWaits(noise[1..], behind, n - 1);
    }
  }

  lemma NoiseLeavesRoom(noise: seq<byte>, behind: seq<byte>, n: nat)
    requires |behind| >= HEADER_LEN - 1 && NoMagicIn(noise, behind) && RoomThroughout(behind)
    requires n <= |noise + behind|
    ensures RoomAfter(noise + behind, n)
  {
    if n < |noise| + HEADER_LEN {
      NoiseWaits(noise, behind, n);
    } else {
      var m := n - |noise|;
      assert (noise + behind)[..n] == noise + behind[..m];
      forall i | 0 <= i < |noise| ensures !MagicAt(noise + behind[..m], i) {
        assert !MagicAt(noise + behind, i);
      }
      NoiseIsSkipped(noise, behind[..m]);
      assert RoomAfter(behind, m);
    }
  }

  /** The same through every cutting of noise and frames together. */
  lemma ResynchronisesThroughCuttings(noise: seq<byte>, frames: seq<Frame>, chunks: seq<seq<byte>>)
    requires AllFit(frames) && frames != [] && Recoverable(frames) && NoMagicIn(noise, Wire(frames))
    requires CutsInto(noise + Wire(frames), chunks)
    ensures NoReset(chunks) && Receive(chunks) == (Skips(|noise|) + Events(frames), [])
  {
    WireNotEmpty(frames);
    forall n | 0 <= n <= |Wire(frames)| ensures RoomAfter(Wire(frames), n) {
      RecoverableHasRoom(frames, n);
    }
    forall n | 0 <= n <= |noise + Wire(frames)| ensures RoomAfter(noise + Wire(frames), n) {
      NoiseLeavesRoom(noise, Wire(frames), n);
    }
    Resynchronises(noise, frames);
    CuttingIsInvisibleIff(noise + Wire(frames));
    ChunkingIsInvisible(chunks);
  }

  // ----- Headers that are refused -----

  ghost function AnyHeader(version: byte, frameType: byte, opcode: uint16, requestId: uint32, payloadLen: uint16):
    (header: seq<byte>)
    ensures |header| == HEADER_LEN
  {
    [MAGIC0, MAGIC1, version, frameType] + Le16(opcode) + Le32(requestId) + Le16(payloadLen)
  }

  lemma HeaderFields(version: byte, frameType: byte, opcode: uint16, requestId: uint32, payloadLen: uint16,
                     rest: seq<byte>)
    ensures var b := AnyHeader(version, frameType, opcode, requestId, payloadLen) + rest;
            && b[0] == MAGIC0 && b[1] == MAGIC1 && b[2] == version && b[3] == frameType && b[HEADER_LEN..] == rest
            && Opcode(b) == opcode && RequestId(b) == requestId && DeclaredLength(b) == HEADER_LEN + payloadLen as nat
  {
    var b := AnyHeader(version, frameType, opcode, requestId, payloadLen) + rest;
    assert b[4..6] == Le16(opcode) && b[6..10] == Le32(requestId) && b[10..12] == Le16(payloadLen);
    Le16RoundTrip(opcode, [0, 0]);
    Le16RoundTrip(payloadLen, [0, 0]);
    Le32RoundTrip(requestId);
  }

  /** The header of another version is answered by its opcode and request, uses up its twelve
      bytes and no more, and the frames behind it come back. */
  lemma OtherVersionIsRefused(version: byte, frameType: byte, opcode: uint16, requestId: uint32, payloadLen: uint16,
                              frames: seq<Frame>)
    requires version != VERSION && AllFit(frames)
    ensures Parse(AnyHeader(version, frameType, opcode, requestId, payloadLen) + Wire(frames)) ==
            ([UnsupportedVersion(opcode, requestId)] + Events(frames), [])
  {
    HeaderFields(version, frameType, opcode, requestId, payloadLen, Wire(frames));
    SentFramesParse(frames);
  }

  /** So does a header that declares a frame over 2048 bytes. */
  lemma LongFrameIsRefused(frameType: byte, opcode: uint16, requestId: uint32, payloadLen: uint16, frames: seq<Frame>)
    requires HEADER_LEN + payloadLen as nat > FRAME_MAX_LEN && AllFit(frames)
    ensures Parse(AnyHeader(VERSION, frameType, opcode, requestId, payloadLen) + Wire(frames)) ==
            ([FrameTooLong(opcode, requestId)] + Events(frames), [])
  {
    HeaderFields(VERSION, frameType, opcode, requestId, payloadLen, Wire(frames));
    SentFramesParse(frames);
  }

  // ----- After a reset -----

  /** A chunk that overflows the buffer is lost with what waited; from then on everything is
      received as from an empty buffer. */
  lemma {:induction false} ResetStartsOver(before: seq<seq<byte>>, chunk: seq<byte>, later: seq<seq<byte>>)
    requires |Receive(before).1| + |chunk| > FRAME_MAX_LEN && chunk != []
    ensures Receive(before + [chunk] + later) ==
            (Receive(before).0 + [BufferReset] + Receive(later).0, Receive(later).1)
  {
    var all := before + [chunk] + later;
    var last := |all| - 1;
    if later == [] {
      assert all[..last] == before && all[last] == chunk;
      assert Receive(before).0 + [BufferReset] + [] == Receive(before).0 + [BufferReset];
    } else {
      var front, end := later[..|later| - 1], later[|later| - 1];
      assert all[..last] == before + [chunk] + front && all[last] == end;
      ResetStartsOver(before, chunk, front);
      var head := Receive(before).0 + [BufferReset];
      var (events, waiting) := Receive(front);
      AppendedEvents(head, events, waiting, end);
    }
  }

  lemma AppendedEvents(head: seq<Event>, events: seq<Event>, waiting: seq<byte>, chunk: seq<byte>)
    requires AtFront(waiting) == Wait
    ensures ReceiveOne(head + events, waiting, chunk) ==
            (head + ReceiveOne(events, waiting, chunk).0, ReceiveOne(events, waiting, chunk).1)
  {
    Assoc(head, events, [BufferReset]);
    Assoc(head, events, Parse(waiting + chunk).0);
  }
}
