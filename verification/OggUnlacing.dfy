/** The Ogg demultiplexer of the album builder: pages are cut into lacing
    segments, and segments are joined into packets (RFC 3533, sections 5 and 6). */
module OggUnlacing {
  import opened Bytes

  datatype Error =
    | InvalidCapture
    | TruncatedHeader
    | TruncatedSegmentTable
    | TruncatedBody
    | TrailingPartialPacket
    | MissingPackets
    | MissingOpusHead
    | MissingOpusTags
    | NoAudioPackets

  datatype Result<+T> = Ok(value: T) | Err(error: Error)

  type Packet = seq<byte>
  type Segment = seq<byte>

  /** "OggS" */
  const CAPTURE: seq<byte> := [0x4F, 0x67, 0x67, 0x53]
  /** "OpusHead" */
  const OPUS_HEAD: seq<byte> := [0x4F, 0x70, 0x75, 0x73, 0x48, 0x65, 0x61, 0x64]
  /** "OpusTags" */
  const OPUS_TAGS: seq<byte> := [0x4F, 0x70, 0x75, 0x73, 0x54, 0x61, 0x67, 0x73]

  /** A page: the 22 header bytes nobody looks at, and its lacing segments. */
  datatype Page = Page(fields: seq<byte>, segments: seq<Segment>)

  ghost predicate ValidSegments(segments: seq<Segment>) {
    forall i :: 0 <= i < |segments| ==> |segments[i]| <= 255
  }

  ghost predicate ValidPage(page: Page) {
    |page.fields| == 22 && |page.segments| <= 255 && ValidSegments(page.segments)
  }

  ghost predicate ValidPages(pages: seq<Page>) {
    forall i :: 0 <= i < |pages| ==> ValidPage(pages[i])
  }

  ghost function Table(segments: seq<Segment>): (table: seq<byte>)
    requires ValidSegments(segments)
    ensures |table| == |segments|
  {
    seq(|segments|, i requires 0 <= i < |segments| => |segments[i]|)
  }

  ghost function EncodePage(page: Page): seq<byte>
    requires ValidPage(page)
  {
    CAPTURE + page.fields + [|page.segments|] + Table(page.segments) + Concat(page.segments)
  }

  ghost function EncodePages(pages: seq<Page>): seq<byte>
    requires ValidPages(pages)
  {
    if pages == [] then [] else EncodePage(pages[0]) + EncodePages(pages[1..])
  }

  function Segments(pages: seq<Page>): seq<Segment> {
    if pages == [] then [] else pages[0].segments + Segments(pages[1..])
  }

  // ----- Lacing (the encoder's direction) -----

  /** Full segments of 255 bytes, then one shorter segment that ends the packet. */
  function LacePacket(packet: Packet): seq<Segment>
    decreases |packet|
  {
    if |packet| < 255 then [packet] else [packet[..255]] + LacePacket(packet[255..])
  }

  function Lace(packets: seq<Packet>): seq<Segment> {
    if packets == [] then [] else LacePacket(packets[0]) + Lace(packets[1..])
  }

  // ----- Joining segments (the builder's direction) -----

  ghost predicate AllFull(parts: seq<Segment>) {
    forall i :: 0 <= i < |parts| ==> |parts[i]| == 255
  }

  /** The packets finished by `segments`, and the parts of the packet still open. */
  function Join(segments: seq<Segment>): (r: (seq<Packet>, seq<Segment>)) {
    if segments == [] then ([], [])
    else
      var last := |segments| - 1;
      var (packets, parts) := Join(segments[..last]);
      if |segments[last]| < 255
      then (packets + [Concat(parts + [segments[last]])], [])
      else (packets, parts + [segments[last]])
  }

  function SumOf(table: seq<byte>): nat {
    if table == [] then 0 else table[0] as nat + SumOf(table[1..])
  }

  function SplitBody(table: seq<byte>, body: seq<byte>): (segments: seq<Segment>)
    requires |body| == SumOf(table)
    ensures |segments| == |table|
  {
    if table == [] then [] else [body[..table[0]]] + SplitBody(table[1..], body[table[0]..])
  }

  /** The first page of `data` and its length in bytes. */
  function ParsePage(data: seq<byte>): (r: Result<(Page, nat)>)
    ensures r.Ok? ==> 27 <= r.value.1 <= |data|
  {
    if |data| < 4 || data[..4] != CAPTURE then Err(InvalidCapture)
    else if |data| < 27 then Err(TruncatedHeader)
    else if |data| < 27 + data[26] as nat then Err(TruncatedSegmentTable)
    else
      var body: nat := 27 + data[26] as nat;
      var table := data[27..body];
      var end := body + SumOf(table);
      if |data| < end then Err(TruncatedBody)
      else Ok((Page(data[4..26], SplitBody(table, data[body..end])), end))
  }

  function ParsePages(data: seq<byte>): (r: Result<seq<Page>>)
    decreases |data|
  {
    if data == [] then Ok([])
    else
      match ParsePage(data)
      case Err(e) => Err(e)
      case Ok((page, len)) =>
        match ParsePages(data[len..])
        case Err(e) => Err(e)
        case Ok(pages) => Ok([page] + pages)
  }

  /** What the builder gets out of a byte stream: all packets, or the first error. */
  function Unlace(data: seq<byte>): (r: Result<seq<Packet>>) {
    match ParsePages(data)
    case Err(e) => Err(e)
    case Ok(pages) =>
      var (packets, parts) := Join(Segments(pages));
      if parts != [] then Err(TrailingPartialPacket) else Ok(packets)
  }

  // ----- Join and Lace are inverse -----

  lemma {:induction false} LacePacketJoined(parts: seq<Segment>, last: Segment)
    requires AllFull(parts) && |last| < 255
    ensures LacePacket(Concat(parts + [last])) == parts + [last]
  {
    if parts == [] {
      assert parts + [last] == [last];
      assert [last][1..] == [];
      assert Concat([last]) == last;
    } else {
      var all := parts + [last];
      var packet := Concat(all);
      assert all[1..] == parts[1..] + [last];
      assert packet[..255] == parts[0] && packet[255..] == Concat(all[1..]);
      LacePacketJoined(parts[1..], last);
    }
  }

  lemma {:induction false} LaceSplit(left: seq<Packet>, right: seq<Packet>)
    ensures Lace(left + right) == Lace(left) + Lace(right)
  {
    if left == [] {
      assert left + right == right;
    } else {
      assert (left + right)[1..] == left[1..] + right;
      LaceSplit(left[1..], right);
    }
  }

  lemma LaceOne(packets: seq<Packet>, packet: Packet)
    ensures Lace(packets + [packet]) == Lace(packets) + LacePacket(packet)
  {
    LaceSplit(packets, [packet]);
    assert [packet][1..] == [];
    assert Lace([packet]) == LacePacket(packet);
  }

  /** Joining never loses a segment: relacing what came out gives back what went in. */
  lemma {:induction false} JoinIsUnlacing(segments: seq<Segment>)
    requires ValidSegments(segments)
    ensures var (packets, parts) := Join(segments);
            segments == Lace(packets) + parts && AllFull(parts)
  {
    if segments != [] {
      var last := |segments| - 1;
      var before := segments[..last];
      JoinIsUnlacing(before);
      var (packets, parts) := Join(before);
      assert segments == before + [segments[last]];
      if |segments[last]| < 255 {
        var joined := Concat(parts + [segments[last]]);
        LacePacketJoined(parts, segments[last]);
        LaceOne(packets, joined);
        assert Lace(packets + [joined]) + [] == segments;
      }
    }
  }

  lemma {:induction false} LacePacketShape(packet: Packet)
    ensures var segs := LacePacket(packet);
            segs != [] && AllFull(segs[..|segs| - 1]) && |segs[|segs| - 1]| < 255
    ensures Concat(LacePacket(packet)) == packet
    ensures ValidSegments(LacePacket(packet))
    decreases |packet|
  {
    var segs := LacePacket(packet);
    if |packet| < 255 {
      assert segs[1..] == [];
    } else {
      LacePacketShape(packet[255..]);
      var rest := LacePacket(packet[255..]);
      assert segs[1..] == rest;
      assert segs[..|segs| - 1] == [packet[..255]] + rest[..|rest| - 1];
    }
  }

  lemma {:induction false} JoinFull(segments: seq<Segment>, parts: seq<Segment>)
    requires AllFull(parts)
    ensures Join(segments + parts) == (Join(segments).0, Join(segments).1 + parts)
  {
    if parts == [] {
      assert segments + parts == segments;
      assert Join(segments).1 + parts == Join(segments).1;
    } else {
      var last := |parts| - 1;
      var all := segments + parts;
      assert all[..|all| - 1] == segments + parts[..last];
      JoinFull(segments, parts[..last]);
      assert all[|all| - 1] == parts[last];
      assert Join(segments).1 + parts == (Join(segments).1 + parts[..last]) + [parts[last]];
    }
  }

  /** Lacing then joining gives the packets back, with nothing left open. */
  lemma {:induction false} JoinLace(packets: seq<Packet>)
    ensures Join(Lace(packets)) == (packets, [])
  {
    if packets != [] {
      var last := |packets| - 1;
      var before := packets[..last];
      var packet := packets[last];
      JoinLace(before);
      assert packets == before + [packet];
      LaceOne(before, packet);
      LacePacketShape(packet);
      var segs := LacePacket(packet);
      var full := segs[..|segs| - 1];
      assert segs == full + [segs[|segs| - 1]];
      JoinFull(Lace(before), full);
      JoinClosing(Lace(before) + full, segs[|segs| - 1]);
      assert Lace(before) + segs == (Lace(before) + full) + [segs[|segs| - 1]];
      assert [] + full == full;
    }
  }

  /** A segment below 255 bytes closes the packet that is open. */
  lemma JoinClosing(segments: seq<Segment>, last: Segment)
    requires |last| < 255
    ensures Join(segments + [last]) == (Join(segments).0 + [Concat(Join(segments).1 + [last])], [])
  {
    var all := segments + [last];
    assert all[..|all| - 1] == segments;
  }

  // ----- Parsing and encoding pages are inverse -----

  lemma {:induction false} SumOfTable(segments: seq<Segment>)
    requires ValidSegments(segments)
    ensures SumOf(Table(segments)) == |Concat(segments)|
  {
    if segments != [] {
      SumOfTable(segments[1..]);
      assert Table(segments)[1..] == Table(segments[1..]);
    }
  }

  lemma {:induction false} SplitBodyOfTable(segments: seq<Segment>)
    requires ValidSegments(segments)
    ensures SumOf(Table(segments)) == |Concat(segments)|
    ensures SplitBody(Table(segments), Concat(segments)) == segments
  {
    SumOfTable(segments);
    if segments != [] {
      var table, body := Table(segments), Concat(segments);
      assert table[1..] == Table(segments[1..]);
      assert body[..table[0]] == segments[0] && body[table[0]..] == Concat(segments[1..]);
      SplitBodyOfTable(segments[1..]);
    }
  }

  lemma SegmentsCons(segment: Segment, segments: seq<Segment>)
    requires |segment| <= 255 && ValidSegments(segments)
    ensures ValidSegments([segment] + segments)
    ensures Table([segment] + segments) == [|segment|] + Table(segments)
    ensures Concat([segment] + segments) == segment + Concat(segments)
  {
    assert ([segment] + segments)[1..] == segments;
  }

  lemma {:induction false} SplitBodySegments(table: seq<byte>, body: seq<byte>)
    requires |body| == SumOf(table)
    ensures var segments := SplitBody(table, body);
            ValidSegments(segments) && Table(segments) == table && Concat(segments) == body
  {
    if table != [] {
      var first, rest := body[..table[0]], body[table[0]..];
      SplitBodySegments(table[1..], rest);
      SegmentsCons(first, SplitBody(table[1..], rest));
      assert table == [table[0]] + table[1..] && body == first + rest;
    }
  }

  lemma ParseEncodedPage(page: Page, rest: seq<byte>)
    requires ValidPage(page)
    ensures ParsePage(EncodePage(page) + rest) == Ok((page, |EncodePage(page)|))
  {
    var data := EncodePage(page) + rest;
    var table, body := Table(page.segments), Concat(page.segments);
    SplitBodyOfTable(page.segments);
    assert data[..4] == CAPTURE;
    assert data[26] == |page.segments|;
    assert data[4..26] == page.fields;
    assert data[27..27 + data[26] as nat] == table;
    assert data[27 + |table|..27 + |table| + |body|] == body;
  }

  lemma ParsedPageEncodes(data: seq<byte>)
    requires ParsePage(data).Ok?
    ensures var (page, len) := ParsePage(data).value;
            ValidPage(page) && EncodePage(page) == data[..len]
  {
    var (page, len) := ParsePage(data).value;
    var body: nat := 27 + data[26] as nat;
    SplitBodySegments(data[27..body], data[body..len]);
    PageParts(data, body, len);
  }

  lemma PageParts(data: seq<byte>, body: nat, len: nat)
    requires 27 <= body <= len <= |data|
    ensures data[..len] == data[..4] + data[4..26] + [data[26]] + data[27..body] + data[body..len]
  {
  }

  lemma {:induction false} ParseEncodedPages(pages: seq<Page>)
    requires ValidPages(pages)
    ensures ParsePages(EncodePages(pages)) == Ok(pages)
  {
    if pages != [] {
      var data := EncodePages(pages);
      var rest := EncodePages(pages[1..]);
      ParseEncodedPage(pages[0], rest);
      assert data[|EncodePage(pages[0])|..] == rest;
      ParseEncodedPages(pages[1..]);
      assert pages == [pages[0]] + pages[1..];
      assert data != [];
    }
  }

  lemma {:induction false} ParsedPagesEncode(data: seq<byte>)
    requires ParsePages(data).Ok?
    ensures ValidPages(ParsePages(data).value)
    ensures EncodePages(ParsePages(data).value) == data
    decreases |data|
  {
    if data != [] {
      var (page, len) := ParsePage(data).value;
      ParsedPageEncodes(data);
      ParsedPagesEncode(data[len..]);
      var pages := ParsePages(data).value;
      assert pages[1..] == ParsePages(data[len..]).value;
      assert data == data[..len] + data[len..];
    }
  }

  lemma {:induction false} SegmentsValid(pages: seq<Page>)
    requires ValidPages(pages)
    ensures ValidSegments(Segments(pages))
  {
    if pages != [] {
      SegmentsValid(pages[1..]);
    }
  }

  /** The builder accepts a stream as packets `ps` exactly when the stream is a run of
      pages whose segments, taken across page boundaries, are the lacing of `ps`. */
  lemma UnlaceInvertsLacing(data: seq<byte>, packets: seq<Packet>)
    ensures Unlace(data) == Ok(packets) <==>
            exists pages ::
              ValidPages(pages) && EncodePages(pages) == data && Segments(pages) == Lace(packets)
  {
    if Unlace(data) == Ok(packets) {
      var pages := ParsePages(data).value;
      ParsedPagesEncode(data);
      SegmentsValid(pages);
      JoinIsUnlacing(Segments(pages));
      assert Lace(packets) + [] == Lace(packets);
      assert ValidPages(pages) && EncodePages(pages) == data && Segments(pages) == Lace(packets);
    }
    if pages :| ValidPages(pages) && EncodePages(pages) == data && Segments(pages) == Lace(packets) {
      ParseEncodedPages(pages);
      JoinLace(packets);
    }
  }

  function Bodies(pages: seq<Page>): seq<byte> {
    if pages == [] then [] else Concat(pages[0].segments) + Bodies(pages[1..])
  }

  lemma {:induction false} BodiesAreSegments(pages: seq<Page>)
    ensures Bodies(pages) == Concat(Segments(pages))
  {
    if pages != [] {
      BodiesAreSegments(pages[1..]);
      ConcatSplit(pages[0].segments, Segments(pages[1..]));
    }
  }

  lemma {:induction false} LaceKeepsBytes(packets: seq<Packet>)
    ensures Concat(Lace(packets)) == Concat(packets)
  {
    if packets != [] {
      LaceKeepsBytes(packets[1..]);
      LacePacketShape(packets[0]);
      ConcatSplit(LacePacket(packets[0]), Lace(packets[1..]));
    }
  }

  /** No body byte is lost, duplicated or reordered. */
  lemma PacketsAreBodies(data: seq<byte>)
    requires Unlace(data).Ok?
    ensures ParsePages(data).Ok?
    ensures Concat(Unlace(data).value) == Bodies(ParsePages(data).value)
  {
    var pages := ParsePages(data).value;
    ParsedPagesEncode(data);
    SegmentsValid(pages);
    JoinIsUnlacing(Segments(pages));
    LaceKeepsBytes(Unlace(data).value);
    BodiesAreSegments(pages);
    assert Lace(Unlace(data).value) + [] == Lace(Unlace(data).value);
    assert Lace(Unlace(data).value) == Segments(pages);
  }

  // ----- The builder's loops -----

  method SumSegments(table: seq<byte>) returns (sum: nat)
    ensures sum == SumOf(table)
  {
    sum := 0;
    for i := 0 to |table|
      invariant sum + SumOf(table[i..]) == SumOf(table)
    {
      assert table[i..][0] == table[i] && table[i..][1..] == table[i + 1..];
      sum := sum + table[i] as nat;
    }
  }

  ghost function AfterPages(pages: seq<Page>, rest: Result<seq<Page>>): Result<seq<Page>> {
    match rest
    case Err(e) => Err(e)
    case Ok(more) => Ok(pages + more)
  }

  lemma {:induction false} SegmentsOne(pages: seq<Page>, page: Page)
    ensures Segments(pages + [page]) == Segments(pages) + page.segments
  {
    if pages == [] {
      assert pages + [page] == [page];
      assert [page][1..] == [];
    } else {
      assert (pages + [page])[1..] == pages[1..] + [page];
      SegmentsOne(pages[1..], page);
    }
  }

  lemma {:induction false} SplitBodyAt(table: seq<byte>, body: seq<byte>, k: nat)
    requires |body| == SumOf(table) && k < |table|
    ensures SumOf(table[..k]) + table[k] == SumOf(table[..k + 1]) <= |body|
    ensures SplitBody(table, body)[k] == body[SumOf(table[..k])..SumOf(table[..k + 1])]
    decreases k
  {
    assert table[..k + 1][0] == table[0];
    assert table[..k + 1][1..] == table[1..][..k];
    if k == 0 {
      assert table[..0] == [];
    } else {
      assert table[..k][1..] == table[1..][..k - 1];
      SplitBodyAt(table[1..], body[table[0]..], k - 1);
    }
  }

  /** Cuts one page body at its segment table, closing a packet at every segment
      shorter than 255 bytes and leaving the last one open otherwise. */
  method CutBody(table: seq<byte>, body: seq<byte>, ghost before: seq<Segment>,
                 packets: seq<Packet>, parts: seq<Segment>)
    returns (finished: seq<Packet>, open: seq<Segment>)
    requires |body| == SumOf(table)
    requires (packets, parts) == Join(before)
    ensures (finished, open) == Join(before + SplitBody(table, body))
  {
    finished, open := packets, parts;
    ghost var segments := SplitBody(table, body);
    var cursor := 0;
    assert table[..0] == [] && before + segments[..0] == before;
    for i := 0 to |table|
      invariant cursor == SumOf(table[..i]) && cursor <= |body|
      invariant (finished, open) == Join(before + segments[..i])
    {
      SplitBodyAt(table, body, i);
      var segment := body[cursor..cursor + table[i] as nat];
      ghost var taken := before + segments[..i + 1];
      assert taken[..|taken| - 1] == before + segments[..i];
      assert taken[|taken| - 1] == segment;
      open := open + [segment];
      cursor := cursor + table[i] as nat;
      if table[i] < 255 {
        finished := finished + [Concat(open)];
        open := [];
      }
    }
    assert segments[..|table|] == segments;
  }

  /** Reads the page that starts at `offset`, as `ParsePage` does. */
  method ReadPage(data: seq<byte>, offset: nat) returns (r: Result<(seq<byte>, seq<byte>, nat)>)
    requires offset < |data|
    ensures r.Err? ==> ParsePage(data[offset..]) == Err(r.error)
    ensures r.Ok? ==>
              var (table, body, end) := r.value;
              offset + 27 <= end <= |data| && |body| == SumOf(table) &&
              ParsePage(data[offset..]) ==
              Ok((Page(data[offset..][4..26], SplitBody(table, body)), end - offset))
  {
    ghost var rest := data[offset..];
    if offset + 4 > |data| || data[offset..offset + 4] != CAPTURE {
      assert |rest| < 4 || rest[..4] == data[offset..offset + 4];
      return Err(InvalidCapture);
    }
    assert rest[..4] == CAPTURE;
    if offset + 27 > |data| {
      return Err(TruncatedHeader);
    }
    var segmentTable := offset + 27;
    var segmentTableEnd := segmentTable + data[offset + 26] as nat;
    if segmentTableEnd > |data| {
      return Err(TruncatedSegmentTable);
    }
    var table := data[segmentTable..segmentTableEnd];
    var bodyLen := SumSegments(table);
    var bodyEnd := segmentTableEnd + bodyLen;
    assert rest[27..27 + rest[26] as nat] == table;
    if bodyEnd > |data| {
      return Err(TruncatedBody);
    }
    var body := data[segmentTableEnd..bodyEnd];
    assert rest[27 + rest[26] as nat..bodyEnd - offset] == body;
    return Ok((table, body, bodyEnd));
  }

  lemma PagesStep(data: seq<byte>, pages: seq<Page>, offset: nat, page: Page, end: nat)
    requires offset < end <= |data|
    requires ParsePages(data) == AfterPages(pages, ParsePages(data[offset..]))
    requires ParsePage(data[offset..]) == Ok((page, end - offset))
    ensures ParsePages(data) == AfterPages(pages + [page], ParsePages(data[end..]))
  {
    assert data[offset..][end - offset..] == data[end..];
    var rest := ParsePages(data[end..]);
    if rest.Ok? {
      assert pages + ([page] + rest.value) == pages + [page] + rest.value;
    }
  }

  /** Walks the pages of the stream and yields its packets. */
  method IterOggPackets(data: seq<byte>) returns (r: Result<seq<Packet>>)
    ensures r == Unlace(data)
  {
    var offset := 0;
    var packetParts: seq<Segment> := [];
    var packets: seq<Packet> := [];
    ghost var pages: seq<Page> := [];
    assert data[0..] == data;
    assert ParsePages(data).Ok? ==> [] + ParsePages(data).value == ParsePages(data).value;

    while offset < |data|
      invariant 0 <= offset <= |data|
      invariant ParsePages(data) == AfterPages(pages, ParsePages(data[offset..]))
      invariant (packets, packetParts) == Join(Segments(pages))
    {
      var page := ReadPage(data, offset);
      if page.Err? {
        return Err(page.error);
      }
      var (table, body, end) := page.value;
      ghost var thisPage := Page(data[offset..][4..26], SplitBody(table, body));
      packets, packetParts := CutBody(table, body, Segments(pages), packets, packetParts);
      SegmentsOne(pages, thisPage);
      PagesStep(data, pages, offset, thisPage, end);
      pages := pages + [thisPage];
      offset := end;
    }

    assert pages + [] == pages;
    if packetParts != [] {
      return Err(TrailingPartialPacket);
    }
    return Ok(packets);
  }

  // ----- Opus packets -----

  /** The audio packets of an Ogg Opus stream: both header packets checked and removed,
      empty packets dropped. */
  method ExtractOpusPackets(data: seq<byte>) returns (r: Result<seq<Packet>>)
    ensures Unlace(data).Err? ==> r == Err(Unlace(data).error)
    ensures Unlace(data).Ok? ==>
              var packets := Unlace(data).value;
              r.Ok? <==> |packets| >= 3 && OPUS_HEAD <= packets[0] && OPUS_TAGS <= packets[1] &&
                         exists i :: 2 <= i < |packets| && packets[i] != []
    ensures r.Ok? ==> r.value == NonEmpty(Unlace(data).value[2..]) && r.value != [] && [] !in r.value
    ensures Unlace(data).Ok? && r.Err? ==>
              var packets := Unlace(data).value;
              r.error == if |packets| < 3 then MissingPackets
                         else if !(OPUS_HEAD <= packets[0]) then MissingOpusHead
                         else if !(OPUS_TAGS <= packets[1]) then MissingOpusTags
                         else NoAudioPackets
  {
    var unlaced := IterOggPackets(data);
    if unlaced.Err? {
      return Err(unlaced.error);
    }
    var packets := unlaced.value;
    if |packets| < 3 {
      return Err(MissingPackets);
    }
    if !(OPUS_HEAD <= packets[0]) {
      return Err(MissingOpusHead);
    }
    if !(OPUS_TAGS <= packets[1]) {
      return Err(MissingOpusTags);
    }
    var audio := NonEmpty(packets[2..]);
    if audio == [] {
      forall i | 2 <= i < |packets| ensures packets[i] == [] {
        assert packets[2..][i - 2] in packets[2..];
      }
      return Err(NoAudioPackets);
    }
    assert audio[0] in audio;
    return Ok(audio);
  }
}
