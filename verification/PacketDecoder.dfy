/** The decoder task's packet loop: a chunk is checked against its CRC and cut back into
    the Opus packets it carries. */
module PacketDecoder {
  import opened Bytes
  import B = AlbumBuilder

  const CHUNK_CRC_BYTES: nat := 4
  const CHUNK_MAX_BYTES: nat := 24 * 1024
  const OPUS_MAX_FRAME_LEN: nat := 1275

  /** Sizes of the length code and of the frame at the front of a byte string. */
  datatype Head = NoFrame | Frame(header: nat, length: nat)

  function FirstFrame(data: seq<byte>): (head: Head)
    ensures head.Frame? ==> 1 <= head.header <= 2 && head.header + head.length <= |data|
    ensures head.Frame? ==> head.length <= OPUS_MAX_FRAME_LEN
  {
    if data == [] || (data[0] >= 252 && |data| < 2) then NoFrame
    else
      var header := if data[0] < 252 then 1 else 2;
      var length: nat := if data[0] < 252 then data[0] else data[1] as nat * 4 + data[0] as nat;
      if header + length > |data| then NoFrame else Frame(header, length)
  }

  /** Length-coded frames from the front of `data` (empty ones included), and what is left
      when no whole frame follows. */
  function Frames(data: seq<byte>): (r: (seq<B.Packet>, seq<byte>))
    decreases |data|
  {
    match FirstFrame(data)
    case NoFrame => ([], data)
    case Frame(header, length) =>
      var (frames, rest) := Frames(data[header + length..]);
      ([data[header..header + length]] + frames, rest)
  }

  /** The packets handed to the Opus decoder for one chunk message. */
  function ChunkPackets(crc: B.Crc, message: seq<byte>): seq<B.Packet> {
    if |message| <= CHUNK_CRC_BYTES || |message| > CHUNK_MAX_BYTES then []
    else if crc(message[4..]) != FromLe32(message[..4]) then []
    else NonEmpty(Frames(message[4..]).0)
  }

  /** The length is one the player takes, and the CRC in front is that of the rest. */
  predicate Intact(crc: B.Crc, message: seq<byte>) {
    4 < |message| <= 24 * 1024 && crc(message[4..]) == FromLe32(message[..4])
  }

  /** `data` is coded packets and a rest that holds no whole one; `packets` are those that
      are not empty. */
  ghost predicate Carries(data: seq<byte>, frames: seq<B.Packet>, rest: seq<byte>, packets: seq<B.Packet>) {
    && B.Encodable(frames) && data == B.Payload(frames) + rest && FirstFrame(rest) == NoFrame
    && packets == NonEmpty(frames)
  }

  /** A damaged chunk yields nothing, and an intact one all that it carries. */
  method DecodeChunk(crc: B.Crc, message: seq<byte>) returns (packets: seq<B.Packet>)
    ensures packets == ChunkPackets(crc, message)
    ensures !Intact(crc, message) ==> packets == []
    ensures Intact(crc, message) ==> exists frames, rest :: Carries(message[4..], frames, rest, packets)
  {
    ChunkPacketsChecked(crc, message);
    if |message| <= CHUNK_CRC_BYTES || |message| > CHUNK_MAX_BYTES {
      return [];
    }
    var data := message[CHUNK_CRC_BYTES..];
    if crc(data) != FromLe32(message[..CHUNK_CRC_BYTES]) {
      return [];
    }
    packets := SplitPackets(data);
    assert data[0..] == data;
  }

  /** What `ChunkPackets` lets through, in the terms of the chunk's bytes alone. */
  lemma ChunkPacketsChecked(crc: B.Crc, message: seq<byte>)
    ensures !Intact(crc, message) ==> ChunkPackets(crc, message) == []
    ensures Intact(crc, message) ==>
              exists frames, rest :: Carries(message[4..], frames, rest, ChunkPackets(crc, message))
  {
    if Intact(crc, message) {
      var data := message[4..];
      FramesReencode(data);
      assert Carries(data, Frames(data).0, Frames(data).1, ChunkPackets(crc, message));
    }
  }

  /** The header read of the packet loop; `NoFrame` where the loop breaks off. */
  method ReadHead(data: seq<byte>, cursor: nat) returns (head: Head)
    requires cursor < |data|
    ensures head == FirstFrame(data[cursor..])
  {
    ghost var tail := data[cursor..];
    assert tail[0] == data[cursor];
    var byte1 := data[cursor];
    var headerSize := 1;
    var frameLen: nat := byte1;
    if byte1 >= 252 {
      if |data| - cursor < 2 {
        return NoFrame;
      }
      assert tail[1] == data[cursor + 1];
      headerSize := 2;
      frameLen := data[cursor + 1] as nat * 4 + byte1 as nat;
    }
    if frameLen > OPUS_MAX_FRAME_LEN {
      // Two bytes cannot say more than 4 * 255 + 255.
      assert false;
    }
    if frameLen > 0 && headerSize + frameLen > |data| - cursor {
      return NoFrame;
    }
    return Frame(headerSize, frameLen);
  }

  /** The packets that `data` still holds at `cursor`. */
  ghost function PacketsFrom(data: seq<byte>, cursor: nat): seq<B.Packet>
    requires cursor <= |data|
  {
    NonEmpty(Frames(data[cursor..]).0)
  }

  lemma FramesStep(data: seq<byte>, cursor: nat, header: nat, length: nat)
    requires cursor <= |data| && FirstFrame(data[cursor..]) == Frame(header, length)
    ensures cursor + header + length <= |data|
    ensures var packet := data[cursor + header..cursor + header + length];
            PacketsFrom(data, cursor) ==
            (if packet == [] then [] else [packet]) + PacketsFrom(data, cursor + header + length)
  {
    var tail := data[cursor..];
    assert tail[header + length..] == data[cursor + header + length..];
    assert tail[header..header + length] == data[cursor + header..cursor + header + length];
    var frames := Frames(tail[header + length..]).0;
    assert Frames(tail).0 == [tail[header..header + length]] + frames;
    assert Frames(tail).0[1..] == frames;
  }

  lemma FramesEnd(data: seq<byte>, cursor: nat)
    requires cursor <= |data| && FirstFrame(data[cursor..]) == NoFrame
    ensures PacketsFrom(data, cursor) == []
  {
  }

  method SplitPackets(data: seq<byte>) returns (packets: seq<B.Packet>)
    ensures packets == PacketsFrom(data, 0)
  {
    packets := [];
    var cursor := 0;
    while cursor < |data|
      invariant cursor <= |data|
      invariant packets + PacketsFrom(data, cursor) == PacketsFrom(data, 0)
    {
      var head := ReadHead(data, cursor);
      if head.NoFrame? {
        FramesEnd(data, cursor);
        return;
      }
      FramesStep(data, cursor, head.header, head.length);
      ghost var before := packets;
      var end := cursor + head.header + head.length;
      var packet := data[cursor + head.header..end];
      if head.length > 0 {
        packets := packets + [packet];
        assert before + ([packet] + PacketsFrom(data, end)) == packets + PacketsFrom(data, end);
      } else {
        assert [] + PacketsFrom(data, end) == PacketsFrom(data, end);
      }
      cursor := end;
    }
    assert data[cursor..] == [];
    FramesEnd(data, cursor);
  }

  lemma FirstFrameOfFramed(packet: B.Packet, rest: seq<byte>)
    requires |packet| <= B.MAX_PACKET_BYTES
    ensures var code := B.EncodePacketLength(|packet|).value;
            FirstFrame(B.Framed(packet) + rest) == Frame(|code|, |packet|)
  {
    var data := B.Framed(packet) + rest;
    var code := B.EncodePacketLength(|packet|).value;
    assert data[0] == code[0];
    assert |code| == 2 ==> data[1] == code[1];
  }

  lemma FirstFrameReencodes(data: seq<byte>)
    requires FirstFrame(data).Frame?
    ensures var Frame(header, length) := FirstFrame(data);
            B.EncodePacketLength(length) == B.Ok(data[..header])
  {
    var Frame(header, length) := FirstFrame(data);
    var code := B.EncodePacketLength(length).value;
    if data[0] >= 252 {
      assert length == 4 * data[1] as nat + data[0] as nat;
      assert code == data[..2];
    } else {
      assert code == data[..1];
    }
  }

  /** The coding is prefix-free: whatever frames were written come back, and nothing else. */
  lemma {:induction false} FramesOfPayload(packets: seq<B.Packet>)
    requires B.Encodable(packets)
    ensures Frames(B.Payload(packets)) == (packets, [])
  {
    if packets != [] {
      var payload := B.Payload(packets);
      var rest := B.Payload(packets[1..]);
      var header := |B.EncodePacketLength(|packets[0]|).value|;
      FirstFrameOfFramed(packets[0], rest);
      FramesOfPayload(packets[1..]);
      assert payload[header..header + |packets[0]|] == packets[0];
      assert payload[header + |packets[0]|..] == rest;
      assert [packets[0]] + packets[1..] == packets;
    }
  }

  lemma PayloadCons(packet: B.Packet, frames: seq<B.Packet>)
    requires |packet| <= B.MAX_PACKET_BYTES && B.Encodable(frames)
    ensures B.Encodable([packet] + frames)
    ensures B.Payload([packet] + frames) == B.Framed(packet) + B.Payload(frames)
  {
    assert ([packet] + frames)[1..] == frames;
  }

  lemma FirstFrameSplits(data: seq<byte>)
    requires FirstFrame(data).Frame?
    ensures var Frame(header, length) := FirstFrame(data);
            length <= B.MAX_PACKET_BYTES &&
            data == B.Framed(data[header..header + length]) + data[header + length..]
  {
    FirstFrameReencodes(data);
    var Frame(header, length) := FirstFrame(data);
    assert data[..header] + data[header..header + length] == data[..header + length];
  }

  lemma {:induction false} FramesRest(data: seq<byte>)
    ensures FirstFrame(Frames(data).1) == NoFrame
    decreases |data|
  {
    if FirstFrame(data).Frame? {
      FramesRest(data[FirstFrame(data).header + FirstFrame(data).length..]);
    }
  }

  lemma FramesUnfold(data: seq<byte>)
    requires FirstFrame(data).Frame?
    ensures var Frame(header, length) := FirstFrame(data);
            var after := Frames(data[header + length..]);
            Frames(data) == ([data[header..header + length]] + after.0, after.1)
  {
  }

  lemma {:induction false} FramesConcat(data: seq<byte>)
    ensures B.Encodable(Frames(data).0) && data == B.Payload(Frames(data).0) + Frames(data).1
    decreases |data|
  {
    if FirstFrame(data).Frame? {
      var front := FirstFrame(data);
      var packet := data[front.header..front.header + front.length];
      var after := data[front.header + front.length..];
      FramesConcat(after);
      FirstFrameSplits(data);
      FramesUnfold(data);
      PayloadCons(packet, Frames(after).0);
      Assoc(B.Framed(packet), B.Payload(Frames(after).0), Frames(after).1);
    }
  }

  /** Any byte string splits in one way only: re-encoding the frames and appending the
      rest gives it back, and the rest holds no whole frame. */
  lemma FramesReencode(data: seq<byte>)
    ensures var (frames, rest) := Frames(data);
            B.Encodable(frames) && data == B.Payload(frames) + rest && FirstFrame(rest) == NoFrame
  {
    FramesConcat(data);
    FramesRest(data);
  }
}
