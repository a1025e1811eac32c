/** The player's view of a `.jba` file: the header check, and a lookup table that is
    paged through a window of 51 entries. */
module TrackLookup {
  import opened Bytes
  import opened Esp

  const MAX_LOOKUP_ENTRIES: nat := 24 * 60 * 60
  const WINDOW_ENTRIES: nat := 51
  const CHUNK_MAX_BYTES: nat := 24 * 1024
  const CHUNK_CRC_BYTES: nat := 4
  const HEADER_BYTES: nat := 9
  const HEADER_BLOCK_SIZE: nat := 512
  const READ_BUF_SIZE: nat := 64 * 1024
  const JBA_VERSION: byte := 1
  const LONG_LIMIT: nat := 0x8000_0000

  // ----- What a file says -----

  function HeaderTableLen(file: seq<byte>): uint32
    requires |file| >= HEADER_BYTES
  {
    FromLe32(file[5..9])
  }

  function HeaderDataOffset(file: seq<byte>): nat
    requires |file| >= HEADER_BYTES
  {
    FromLe32(file[1..5]) * HEADER_BLOCK_SIZE
  }

  /** The header, table and audio area all lie inside the file, in that order. */
  predicate HeaderOk(file: seq<byte>) {
    && HEADER_BYTES <= |file| < LONG_LIMIT
    && file[0] == JBA_VERSION
    && 0 < HeaderTableLen(file) <= MAX_LOOKUP_ENTRIES
    && HEADER_BYTES + 4 * HeaderTableLen(file) <= HeaderDataOffset(file) < |file|
  }

  /** Entry `k` of the whole lookup table. */
  function Entry(file: seq<byte>, k: nat): uint32
    requires HeaderOk(file) && k < HeaderTableLen(file)
  {
    FromLe32(file[9 + 4 * k..13 + 4 * k])
  }

  function DataBytes(file: seq<byte>): nat
    requires HeaderOk(file)
  {
    |file| - HeaderDataOffset(file)
  }

  /** Where chunk `k` ends: at the next entry, or at the end of the file. */
  function EndOf(file: seq<byte>, k: nat): nat
    requires HeaderOk(file) && k < HeaderTableLen(file)
  {
    if k + 1 < HeaderTableLen(file) then Entry(file, k + 1) else DataBytes(file)
  }

  predicate ChunkOk(file: seq<byte>, k: nat)
    requires HeaderOk(file) && k < HeaderTableLen(file)
  {
    && Entry(file, k) <= EndOf(file, k) <= DataBytes(file)
    && CHUNK_CRC_BYTES < EndOf(file, k) - Entry(file, k) <= CHUNK_MAX_BYTES
  }

  /** A playable chunk lies inside the file and is neither too short nor too long. */
  lemma ChunkLiesInFile(file: seq<byte>, k: nat)
    requires HeaderOk(file) && k < HeaderTableLen(file)
    ensures ChunkOk(file, k) <==>
            && Entry(file, k) as nat + 4 < EndOf(file, k) <= Entry(file, k) as nat + 24576
            && HeaderDataOffset(file) + EndOf(file, k) <= |file|
  {
  }

  ghost predicate ChunksOk(file: seq<byte>, from: nat, to: nat)
    requires HeaderOk(file) && to <= HeaderTableLen(file)
  {
    forall k :: from <= k < to ==> ChunkOk(file, k)
  }

  /** Every chunk of the file is playable. */
  ghost predicate TableOk(file: seq<byte>) {
    HeaderOk(file) && Entry(file, 0) == 0 && ChunksOk(file, 0, HeaderTableLen(file))
  }

  /** How many entries a window loaded at `start` holds, and how many of its chunks have
      both ends inside it. */
  function WindowCount(tableLen: nat, start: nat): nat
    requires start < tableLen
  {
    if tableLen - start > WINDOW_ENTRIES then WINDOW_ENTRIES else tableLen - start
  }

  function CheckedEnd(tableLen: nat, start: nat): nat
    requires start < tableLen
  {
    var end := start + WindowCount(tableLen, start);
    if end < tableLen then end - 1 else end
  }

  /** A window can be loaded at `start` exactly when this holds and the reads work. */
  ghost predicate WindowOk(file: seq<byte>, start: nat)
    requires HeaderOk(file) && start < HeaderTableLen(file)
  {
    && (start == 0 ==> Entry(file, 0) == 0)
    && ChunksOk(file, start, CheckedEnd(HeaderTableLen(file), start))
  }

  // ----- Input and output -----

  /** How the accesses of one window load turn out: a stop request seen before or after
      the read, the file opening and seeking, and the bytes `fread` delivers. */
  datatype WindowIo = WindowIo(stopBefore: bool, opens: bool, seeks: bool, bytesRead: nat, stopAfter: bool)
  {
    predicate Good(bytes: nat) {
      !stopBefore && opens && seeks && bytesRead == bytes && !stopAfter
    }
  }

  /** How the header read turns out: refused, or some prefix of the read buffer. */
  datatype HeaderIo = ReadFails(err: Err) | Reads(bytes: nat, statWorks: bool)

  class TrackInfo {
    /** The track's file on the cartridge. */
    var file: seq<byte>
    var tableLen: nat
    var dataOffset: nat
    var totalFileSize: nat
    var windowStart: nat
    var windowEntryCount: nat
    const window: array<uint32>

    /** Nothing loaded, or a header that passed every check. */
    ghost predicate Loaded()
      reads this
    {
      && HeaderOk(file)
      && tableLen == HeaderTableLen(file)
      && dataOffset == HeaderDataOffset(file)
      && totalFileSize == |file|
    }

    /** The window, when it holds anything, is a validated slice of the whole table. */
    ghost predicate WindowValid()
      requires Loaded()
      reads this, window
    {
      window.Length == WINDOW_ENTRIES &&
      (windowEntryCount == 0 ||
       (windowStart < tableLen &&
        windowEntryCount == WindowCount(tableLen, windowStart) &&
        WindowOk(file, windowStart) &&
        forall i :: 0 <= i < windowEntryCount ==> window[i] == Entry(file, windowStart + i)))
    }

    ghost predicate Valid()
      reads this, window
    {
      window.Length == WINDOW_ENTRIES &&
      if tableLen == 0 then windowEntryCount == 0 else Loaded() && WindowValid()
    }

    constructor ()
      ensures Valid() && tableLen == 0 && fresh(window)
    {
      file, tableLen, dataOffset, totalFileSize := [], 0, 0, 0;
      windowStart, windowEntryCount := 0, 0;
      window := new uint32[WINDOW_ENTRIES](_ => 0);
    }

    method InvalidateLookupWindow()
      requires Valid()
      modifies this`windowStart, this`windowEntryCount, window
      ensures Valid() && windowEntryCount == 0 && windowStart == 0
      ensures forall i :: 0 <= i < window.Length ==> window[i] == 0
    {
      windowStart, windowEntryCount := 0, 0;
      for i := 0 to window.Length
        invariant forall k :: 0 <= k < i ==> window[k] == 0
        modifies window
      {
        window[i] := 0;
      }
    }

    /** Reads and checks the header of `trackFile`. The first read brings at most 64 KiB. */
    method LoadTrackInfo(trackFile: seq<byte>, io: HeaderIo) returns (err: Err)
      requires window.Length == WINDOW_ENTRIES
      requires |trackFile| <= UINT32_MAX
      requires io.ReadFails? ==> io.err != OK
      requires io.Reads? ==> io.bytes <= |trackFile| && io.bytes <= READ_BUF_SIZE
      modifies this, window
      ensures Valid()
      ensures err == OK <==> io.Reads? && io.bytes >= HEADER_BYTES && io.statWorks && HeaderOk(trackFile)
      ensures err == OK ==> file == trackFile && Loaded() && windowEntryCount == 0
      ensures err == OK ==>
                && 9 <= |trackFile| < 0x8000_0000 && trackFile[0] == 1
                && tableLen == FromLe32(trackFile[5..9]) && dataOffset == 512 * FromLe32(trackFile[1..5])
                && 0 < tableLen <= 86400 && 9 + 4 * tableLen <= dataOffset < |trackFile|
      ensures io.Reads? && io.bytes >= HEADER_BYTES && trackFile[0] != JBA_VERSION ==> err == NOT_SUPPORTED
      ensures io.ReadFails? ==> err == io.err
      ensures err != OK ==> tableLen == 0
    {
      file, tableLen, dataOffset, totalFileSize := trackFile, 0, 0, 0;
      windowStart, windowEntryCount := 0, 0;
      if io.ReadFails? {
        return io.err;
      }
      if io.bytes < HEADER_BYTES {
        return FAIL;
      }
      if trackFile[0] != JBA_VERSION {
        return NOT_SUPPORTED;
      }
      var lookupTableLen := FromLe32(trackFile[5..9]);
      if lookupTableLen > (UINT32_MAX as int - HEADER_BYTES) / 4 {
        return INVALID_SIZE;
      }
      if lookupTableLen > MAX_LOOKUP_ENTRIES {
        return INVALID_SIZE;
      }
      var offset := FromLe32(trackFile[1..5]) as int * HEADER_BLOCK_SIZE;
      if offset == 0 || offset > UINT32_MAX {
        return INVALID_SIZE;
      }
      if lookupTableLen == 0 {
        return FAIL;
      }
      var minHeaderBytes := HEADER_BYTES + lookupTableLen as int * 4;
      if !io.statWorks {
        return NOT_FOUND;
      }
      var fileSize := if |trackFile| < LONG_LIMIT then |trackFile| else |trackFile| - 2 * LONG_LIMIT;
      if fileSize <= 0 || fileSize <= offset {
        return FAIL;
      }
      if offset < minHeaderBytes {
        return INVALID_SIZE;
      }
      tableLen, dataOffset, totalFileSize := lookupTableLen, offset, fileSize;
      InvalidateLookupWindow();
      return OK;
    }

    predicate LookupWindowContains(chunk: nat)
      reads this
    {
      if windowEntryCount == 0 || chunk >= tableLen || chunk < windowStart then false
      else
        var relative := chunk - windowStart;
        relative + 1 < windowEntryCount ||
        (chunk + 1 == tableLen && relative + 1 == windowEntryCount)
    }

    /** The entries `fread` puts in the window. */
    method ReadEntries(start: nat, count: nat)
      requires Loaded() && window.Length == WINDOW_ENTRIES
      requires count <= WINDOW_ENTRIES && start + count <= tableLen
      modifies window
      ensures forall i :: 0 <= i < count ==> window[i] == Entry(file, start + i)
    {
      for i := 0 to count
        invariant forall k :: 0 <= k < i ==> window[k] == Entry(file, start + k)
      {
        var at := HEADER_BYTES + 4 * (start + i);
        window[i] := FromLe32(file[at..at + 4]);
      }
    }

    /** Loads 51 entries from `startChunk` on, or the rest of the table if that is less,
        and checks every chunk that has both ends in them. */
    method LoadLookupWindow(startChunk: nat, io: WindowIo) returns (err: Err)
      requires Valid()
      modifies this`windowStart, this`windowEntryCount, window
      ensures Valid()
      ensures err == OK <==>
              startChunk < tableLen &&
              io.Good(4 * WindowCount(tableLen, startChunk)) && WindowOk(file, startChunk)
      ensures err == OK ==> windowStart == startChunk && windowEntryCount > 0
      ensures err != OK && startChunk < tableLen ==> windowEntryCount == 0
      ensures startChunk >= tableLen ==> unchanged(this) && unchanged(window)
    {
      if startChunk >= tableLen {
        return INVALID_ARG;
      }
      var entryCount := tableLen - startChunk;
      if entryCount > WINDOW_ENTRIES {
        entryCount := WINDOW_ENTRIES;
      }
      var lookupOffset := HEADER_BYTES + startChunk * 4;
      var lookupBytes := entryCount * 4;
      if lookupOffset > dataOffset || lookupBytes > dataOffset - lookupOffset {
        // The header check has already placed the whole table before the audio area.
        assert false;
      }
      if io.stopBefore {
        InvalidateLookupWindow();
        return INVALID_STATE;
      }
      if !io.opens {
        InvalidateLookupWindow();
        return NOT_FOUND;
      }
      if !io.seeks {
        InvalidateLookupWindow();
        return FAIL;
      }
      windowEntryCount := 0;
      if io.stopAfter {
        InvalidateLookupWindow();
        return INVALID_STATE;
      }
      if io.bytesRead != lookupBytes {
        InvalidateLookupWindow();
        return FAIL;
      }
      ReadEntries(startChunk, entryCount);
      var valid := CheckEntries(startChunk, entryCount);
      if !valid {
        InvalidateLookupWindow();
        return FAIL;
      }
      windowStart, windowEntryCount := startChunk, entryCount;
      return OK;
    }

    /** The loop over the chunks of a freshly read window. */
    method CheckEntries(startChunk: nat, entryCount: nat) returns (valid: bool)
      requires Loaded() && window.Length == WINDOW_ENTRIES
      requires startChunk < tableLen && entryCount == WindowCount(tableLen, startChunk)
      requires forall i :: 0 <= i < entryCount ==> window[i] == Entry(file, startChunk + i)
      ensures valid <==> WindowOk(file, startChunk)
    {
      var totalDataBytes := totalFileSize - dataOffset;
      if startChunk == 0 && window[0] != 0 {
        return false;
      }
      var chunkCount := entryCount;
      if startChunk + entryCount < tableLen {
        chunkCount := chunkCount - 1;
      }
      for index := 0 to chunkCount
        invariant ChunksOk(file, startChunk, startChunk + index)
      {
        var chunkStart: nat := window[index];
        var chunkEnd: nat := if index + 1 < entryCount then window[index + 1] else totalDataBytes;
        assert chunkStart == Entry(file, startChunk + index) && chunkEnd == EndOf(file, startChunk + index);
        assert ChunkOk(file, startChunk + index) <==>
               chunkStart <= chunkEnd <= totalDataBytes &&
               CHUNK_CRC_BYTES < chunkEnd - chunkStart <= CHUNK_MAX_BYTES;
        if chunkStart > totalDataBytes || chunkEnd > totalDataBytes || chunkEnd < chunkStart {
          return false;
        }
        if chunkEnd - chunkStart <= CHUNK_CRC_BYTES {
          return false;
        }
        if chunkEnd - chunkStart > CHUNK_MAX_BYTES {
          return false;
        }
      }
      return true;
    }

    /** Start and end of a chunk in the audio area, through the window. A success always
        agrees with the whole table and has passed the size checks. */
    method GetChunkBounds(chunk: nat, io: WindowIo) returns (err: Err, start: nat, end: nat)
      requires Valid()
      modifies this`windowStart, this`windowEntryCount, window
      ensures Valid()
      ensures err == OK <==>
              chunk < tableLen &&
              (old(LookupWindowContains(chunk)) ||
               (io.Good(4 * WindowCount(tableLen, chunk)) && WindowOk(file, chunk)))
      ensures err == OK ==>
              start == Entry(file, chunk) && end == EndOf(file, chunk) && ChunkOk(file, chunk)
      ensures err == OK ==> LookupWindowContains(chunk)
    {
      start, end := 0, 0;
      if chunk >= tableLen {
        err := INVALID_ARG;
        return;
      }
      if !LookupWindowContains(chunk) {
        err := LoadLookupWindow(chunk, io);
        if err != OK {
          return;
        }
      }
      var relative := chunk - windowStart;
      start := window[relative];
      end := if relative + 1 < windowEntryCount then window[relative + 1] else totalFileSize - dataOffset;
      err := OK;
    }

    /** Any mix of window loads, invalidations and bounds queries on a loaded track:
        whatever the window went through, an answer is the whole table's answer. */
    method Session(requests: seq<Request>) returns (answers: seq<Option<(nat, nat)>>)
      requires Valid() && tableLen > 0
      modifies this`windowStart, this`windowEntryCount, window
      ensures Valid() && |answers| == |requests|
      ensures forall r :: 0 <= r < |requests| ==> AnswerRight(file, requests[r], answers[r])
    {
      answers := [];
      for r := 0 to |requests|
        invariant Valid() && |answers| == r
        invariant forall k :: 0 <= k < r ==> AnswerRight(file, requests[k], answers[k])
      {
        match requests[r] {
          case Load(chunk, io) =>
            var _ := LoadLookupWindow(chunk, io);
            answers := answers + [None];
          case Invalidate =>
            InvalidateLookupWindow();
            answers := answers + [None];
          case Bounds(chunk, io) =>
            var err, start, end := GetChunkBounds(chunk, io);
            answers := answers + [if err == OK then Some((start, end)) else None];
        }
      }
    }
  }

  /** An answer is the whole table's, and on a good table a query whose reads work has one. */
  ghost predicate AnswerRight(file: seq<byte>, request: Request, answer: Option<(nat, nat)>)
    requires HeaderOk(file)
  {
    request.Bounds? ==>
      && (answer.Some? ==>
            request.chunk < HeaderTableLen(file) && ChunkOk(file, request.chunk) &&
            answer.value == (Entry(file, request.chunk) as nat, EndOf(file, request.chunk)))
      && (TableOk(file) && Answerable(file, request) ==> answer.Some?)
  }

  /** The chunk exists, and a window load for it meets no stop and no failed read. */
  ghost predicate Answerable(file: seq<byte>, request: Request)
    requires HeaderOk(file) && request.Bounds?
  {
    request.chunk < HeaderTableLen(file) &&
    request.io.Good(4 * WindowCount(HeaderTableLen(file), request.chunk))
  }

  datatype Option<+T> = None | Some(value: T)

  datatype Request =
    | Load(chunk: nat, io: WindowIo)
    | Invalidate
    | Bounds(chunk: nat, io: WindowIo)
}
