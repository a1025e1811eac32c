# Jukebox firmware: verified model

This project models the parts of the ESP32 jukebox firmware, and of the host tool that builds
its albums, whose correctness depends on several functions agreeing with each other, and
proves with Dafny 4.11 that they do. `dafny verify dfyconfig.toml` checks the whole project.

| file | component |
|---|---|
| `OggUnlacing.dfy` | the builder's Ogg reader (sections 5 and 6 of RFC 3533) |
| `AlbumBuilder.dfy` | the builder's packet coding (section 3.2.1 of RFC 6716), chunks and `.jba` file |
| `TrackLookup.dfy` | the player's header check and its lookup table, paged through a window |
| `PacketDecoder.dfy` | the player's packet loop over one chunk |
| `ContainerRoundTrip.dfy` | builder and player together |
| `PlaybackPipeline.dfy`, `PipelineLaws.dfy` | service, reader, cartridge and decoder as interleaved steps, and what every interleaving keeps |
| `PipelineProgress.dfy` | a track being played can always be brought to its end; and a run that breaks the permit balance |
| `PipelineControl.dfy` | completions, stops, starts and failures: what the service can always bring about |
| `PlayedAlbum.dfy`, `DamagedAlbum.dfy` | the pipeline playing a built file, whole or with damaged chunks |
| `PlaylistOrder.dfy` | shuffle order, next and previous |
| `HistorySlots.dfy`, `HistoryLaws.dfy` | the play history as operations on two slot arrays, and their invariant |
| `HistoryRuns.dfy`, `HistoryOrder.dfy` | play counts and first-in-first-out eviction over runs |
| `HistoryEffects.dfy` | what one play, sync or pruning changes, record by record |
| `HistoryImage.dfy` | the history file's layout |
| `HistoryCache.dfy` | the history as the firmware updates it in place |
| `HistoryCommit.dfy` | the rewrite-and-verify commit |
| `CommitHandshake.dfy` | the handshake between requesters and the committing task |
| `CompanionFrames.dfy`, `CompanionResync.dfy` | the companion link's framing, and its way back to frames after noise, refused headers and resets |
| `CompanionTlv.dfy` | its payloads |
| `CompanionAuth.dfy`, `CompanionTrust.dfy` | its pairing and authentication, and what they mean for a client |
| `RequestRate.dfy`, `ScrobbleQueue.dfy` | the Last.fm sender |
| `Bytes.dfy`, `Esp.dfy` | little-endian words, sequences of bytes, error codes |

Code that updates state in place is a class whose methods are proved equal to functions of the
old state; what the firmware promises is proved of those functions. Tasks that run side by side
are state machines: a run is any sequence of steps, and the laws hold in every state of every run.

CRC-32 and HMAC-SHA256 are functions passed in, about which nothing is assumed. NVS edits take
effect only when the namespace opens and the commit succeeds. Random numbers, the outcome of every
file access and the time a task is delayed are arbitrary. Widths that matter are written out: play
counts, tick counters and sequence numbers are taken modulo 2 to the 32.

Where the code and what one expects of it differ, the model follows the code:

- A correct pairing sequence is missed when wrong presses came first, unless the presses that
  counted fit the sequence shifted by them: a press that does not match is not looked at again as
  a first press (`CompanionAuth.SequencePairsIff` is the exact condition,
  `CompanionAuth.FalseStartIsMissed` a run from power-up that shows it).
- A pairing whose last press meets a full or failing store stays pending and ignores all presses
  until it is confirmed, cancelled or late (`CompanionTrust.FailedStoreKeepsPairing`).
- How a stream of companion frames is cut shows when the parser's overflow reset drops bytes. Every
  cutting into chunks of at most 512 bytes is parsed as the whole stream if and only if the stream
  leaves room for the next chunk throughout (`CompanionFrames.CuttingIsInvisibleIff`). Sent frames
  come back through every cutting if and only if each fits the buffer together with what follows
  it up to 511 bytes (`CompanionFrames.SentFramesAreRecoveredIff`), so always when all are at most 1537
  bytes (`CompanionFrames.SentFramesAreRecovered`); above that, `CompanionFrames.LongFramesMayReset` gives two
  frames and a cutting of them that loses some.
- Albums first seen at the largest sequence number are never pruned. Making room succeeds if and
  only if there is room once every other album is gone (`HistoryLaws.CapacitySucceedsIff`);
  `HistoryLaws.LateAlbumIsNeverPruned` is a sync that fails after pruning in vain. The laws of runs
  assume sequence numbers below the largest.
- Stopping tests the idle bits of reader and decoder before it empties the queues. A task that takes
  its command in between leaves three permits where there are two buffers
  (`PipelineProgress.DisturbedRunBreaksBalance`): the reset balances the permits if and only if the
  reader holds none (`PipelineLaws.ResetBalancesIff`). The laws of buffers and order are proved of runs
  without such a step; the laws of completions are proved of all runs.
- The loader of the history file checks version, counts and size only, so the laws of runs start
  from an empty cache or an image this code saved.

## Model

| member | source | states |
|---|---|---|
| OggUnlacing.UnlaceInvertsLacing | tools/make_album.py:283-318 | a stream is accepted as packets `ps` if and only if it is a run of well-formed pages whose segments, taken across page boundaries, are the lacing of `ps` |
| OggUnlacing.JoinIsUnlacing | tools/make_album.py:307-313 | the packets found, laced again, and the segments left open are the segments read |
| OggUnlacing.JoinLace | tools/make_album.py:307-313 | unlacing the lacing of any packet list gives the list back and leaves nothing open |
| OggUnlacing.PacketsAreBodies | tools/make_album.py:283-318 | the packets joined end to end are the page bodies joined end to end |
| OggUnlacing.ParseEncodedPages | tools/make_album.py:287-306 | every run of well-formed pages parses as itself |
| OggUnlacing.ParsedPagesEncode | tools/make_album.py:287-306 | whatever parses is exactly the encoding of the pages found, to the last byte |
| OggUnlacing.SumSegments | tools/make_album.py:300 | the body length is the sum of the lacing values |
| OggUnlacing.ReadPage | tools/make_album.py:288-306 | the page read at an offset is the page at the front of the rest of the stream, or its error |
| OggUnlacing.CutBody | tools/make_album.py:307-313 | cutting one page body continues the packets and the open packet of all pages before it |
| OggUnlacing.IterOggPackets | tools/make_album.py:283-318 | the page loop returns the packets of the whole stream, or the first error |
| OggUnlacing.ExtractOpusPackets | tools/make_album.py:321-333 | accepts exactly streams with both Opus header packets and a non-empty packet after them, and returns those non-empty packets in order |
| AlbumBuilder.EncodePacketLength | tools/make_album.py:336-346 | one or two bytes from which the length can be read back; longer packets are refused |
| AlbumBuilder.BuildPayload | tools/make_album.py:353-356 | the coded packets of a group, or a refusal exactly when one is too long |
| AlbumBuilder.BuildChunks | tools/make_album.py:349-366 | accepts exactly the lists whose packets and chunks are within bounds; chunk `k` is the CRC and coding of packets 50k to 50k+49 |
| AlbumBuilder.BuildLookupTable | tools/make_album.py:373-379 | entry `k` is the number of bytes in the chunks before `k` |
| AlbumBuilder.OffsetNext | tools/make_album.py:373-379 | neighbouring offsets differ by the chunk between them |
| AlbumBuilder.BuildJba | tools/make_album.py:369-390 | the file holds header, table, padding to a 512-byte block and all chunks, each at its entry |
| TrackLookup.TrackInfo.LoadTrackInfo | main/player_service.c:1130-1239 | succeeds only on a header that lies inside the file, and whenever the reads work on a good file; records its table length and data offset |
| TrackLookup.TrackInfo.LoadLookupWindow | main/player_service.c:514-637 | a loaded window is entries of the whole table from its start, every chunk in it within bounds; it loads exactly when the window is good and the reads work |
| TrackLookup.TrackInfo.CheckEntries | main/player_service.c:597-634 | passes if and only if every chunk with both ends in the window is within bounds |
| TrackLookup.TrackInfo.ReadEntries | main/player_service.c:564-584 | the entries read are the table's |
| TrackLookup.TrackInfo.GetChunkBounds | main/player_service.c:639-666 | a success returns entry `i` and the next entry, or the data length after the last chunk, of the whole table, with a size over 4 and at most 24576 |
| TrackLookup.TrackInfo.InvalidateLookupWindow | main/player_service.c:379-389 | the window is empty and the track stays loaded |
| TrackLookup.TrackInfo.Session | main/player_service.c:491-666 | after any sequence of lookups, failed reads and invalidations every success agrees with the whole table |
| PacketDecoder.FirstFrame | main/player_service.c:1764-1800 | the header read stays inside the chunk |
| PacketDecoder.ReadHead | main/player_service.c:1764-1800 | the loop's header read finds the frame at the front of the rest, or breaks off where there is none |
| PacketDecoder.FirstFrameOfFramed | main/player_service.c:1764-1786 | a coded packet followed by anything reads back with its own length |
| PacketDecoder.FirstFrameReencodes | main/player_service.c:1764-1786 | the length read is coded by the bytes it was read from |
| PacketDecoder.FramesOfPayload | main/player_service.c:1755-1848 | the packet loop undoes the builder's coding of any packet list, and nothing is left over |
| PacketDecoder.FramesReencode | main/player_service.c:1755-1848 | any bytes split in one way only: the frames coded again and the rest, which holds no whole frame, are the bytes |
| PacketDecoder.SplitPackets | main/player_service.c:1755-1848 | the loop hands on exactly the non-empty frames from the cursor on, in order |
| PacketDecoder.DecodeChunk | main/player_service.c:1723-1848 | a chunk of wrong size or CRC yields nothing; any other yields exactly the non-empty packets whose coding, up to a rest without a whole packet, is its bytes |
| PacketDecoder.ChunkPacketsChecked | main/player_service.c:1723-1749 | the same of the packets handed on, in terms of the chunk's bytes alone |
| ContainerRoundTrip.WindowSliceIsChunk | main/player_service.c:1540-1626 | a chunk cut out of a larger read is the chunk's bytes in the file |
| ContainerRoundTrip.NextMessage | main/player_service.c:1533-1626 | one turn of the reader's loop produces exactly the chunk's file bytes, from the buffer held or a new one |
| ContainerRoundTrip.ReadChunks | main/player_service.c:1503-1633 | the messages are the bytes of consecutive chunks from the start chunk, all of them when every access works |
| ContainerRoundTrip.BuiltHeader | main/player_service.c:1165-1238 | a built file passes the player's header check |
| ContainerRoundTrip.BuiltChunk | main/player_service.c:600-666 | a built file's chunk `k` is within bounds and is the builder's chunk `k` |
| ContainerRoundTrip.ChunkYieldsGroup | main/player_service.c:1723-1848 | the player decodes a built chunk to the non-empty packets of its group |
| ContainerRoundTrip.BuiltFileChunk | main/player_service.c:1723-1848 | chunk `k` of any built file decodes to the packets of second `k` |
| ContainerRoundTrip.PlayerUndoesBuilder | tools/make_album.py:336-390 | the container law: every file the builder makes for at most 86400 chunks is accepted and decodes to exactly its non-empty packets, in order |
| ContainerRoundTrip.SizeFits | main/player_service.c:1185-1238 | a file of at most 86400 chunks fits the player's 32-bit file size |
| ContainerRoundTrip.DecodeAll | main/player_service.c:1694-1849 | decoding all chunk messages of a file gives the file's packets |
| ContainerRoundTrip.BuildAndPlay | tools/make_album.py:349-390 | builder and player as imperative code, end to end: what is accepted is played as it went in, and every list the builder accepts within the cap is |
| PipelineLaws.BufferIsFree | main/cartridge_service.c:310-330 | when a read starts filling a buffer, no queued chunk message and no chunk being decoded points into it |
| PipelineLaws.BuffersAreOwned | main/player_service.c:1505-1719 | on every run in which no task takes its command between the idle test and the reset, free permits, the reader's permit and releases on their way are two, reads fill free buffers only, and the chunk being decoded is its file's bytes |
| PipelineLaws.EofMeansAllDecoded | main/player_service.c:1630-1708 | on such runs, when the decoder takes the end marker it has decoded every chunk sent, in order and byte for byte; the whole rest of the track if the reader reached the end |
| PipelineLaws.AdvancesOnce | main/player_service.c:2197-2238 | a completion that advances the playlist is of the active generation, the first to do so, and not of one stopped while running |
| PipelineLaws.StaleCompletionsAreInert | main/player_service.c:2197-2238 | on every run whatever, each generation advances the playlist by completion at most once, never when superseded or stopped while its pipeline ran; that the others do is `PipelineControl.CompletionMovesOn` |
| PipelineLaws.OnlyHandlingAdvances | main/player_service.c:2197-2238 | no other step of any task advances the playlist by completion |
| PipelineLaws.NoneLeft | main/player_service.c:1542-1577 | fewer releases on their way than guard a buffer means no message points into it |
| PipelineLaws.GuardedAppend | main/player_service.c:1542-1552 | a release sent guards every chunk before it once more |
| PipelineLaws.FlushKeepsControl | main/player_service.c:1542-1552 | sending the release keeps permits and ownership in balance |
| PipelineLaws.SentPointsRight | main/player_service.c:1617-1626 | the message sent points at exactly its chunk's bytes |
| PipelineLaws.FilledKeepsInv | main/cartridge_service.c:310-330 | filling the next buffer changes no byte a message points at |
| PipelineLaws.ReceiveKeepsInv | main/player_service.c:1704-1719 | taking a chunk, release or end marker keeps the pipeline's invariant |
| PipelineLaws.DecodeKeepsData | main/player_service.c:1721-1849 | the chunk decoded is the next of the track |
| PipelineLaws.ServiceKeepsInv | main/player_service.c:1288-1325 | idle test, stop, reset, header read, launch and completions, each a step of its own, keep the pipeline's invariant while the tasks stay as idle as they were seen |
| PipelineLaws.DecoderKeepsInv | main/player_service.c:1646-1856 | so does every step of the decoder |
| PipelineLaws.ReaderKeepsInv | main/player_service.c:1457-1644 | so does every step of the reader and of the cartridge on its behalf, whether accesses work or not |
| PipelineLaws.StepKeepsOnce | main/player_service.c:1296-1302 | every step keeps completions distinct and at most one per generation |
| PipelineLaws.RunKeepsInv | main/player_service.c:1457-1856 | the invariant holds in every state of every such run |
| PipelineLaws.ResetBalancesIff | main/player_service.c:401-436 | emptying the queues leaves the permits balanced if and only if the reader holds none |
| PipelineLaws.StepKeepsQuiet | main/player_service.c:1304-1316 | unless a task takes its command, both tasks stay idle from the idle test to the end of the start |
| PipelineLaws.RunKeepsOnce | main/player_service.c:2197-2238 | on every run completions are handled at most once and belong to distinct generations |
| PipelineProgress.RunKeepsEof | main/player_service.c:1630-1644 | on every run, once the reader has finished a track that nobody stops, its end marker is on its way |
| PipelineProgress.NextGetsCloser | main/player_service.c:1457-1719 | while a track is played some step of reader, cartridge or decoder is enabled and brings the end marker closer |
| PipelineProgress.EndCanBeReached | main/player_service.c:1457-1719 | so their steps alone bring the decoder to the end marker, with the whole track sent if no read has failed |
| PipelineProgress.PlayingTrackCanEnd | main/player_service.c:1457-1719 | no pipeline gets stuck: in every state of every such run a playable track that is not being stopped can be brought to its end |
| PipelineProgress.DisturbedRunBreaksBalance | main/player_service.c:1310-1325 | from power-up, for any playable track: a stop whose idle test comes before, and whose reset comes after, the reader takes its command and a permit leaves three permits |
| PipelineControl.CompletionMovesOn | main/player_service.c:2197-2238 | on every run a completion moves the playlist on if and only if it is of the active generation and that was not stopped while running; then the next track is started if there is one and both tasks are idle; nothing else changes |
| PipelineControl.NextTrackFollows | main/player_service.c:2197-2238 | a track at its end is followed by any next track, whatever stale completions still wait |
| PipelineControl.StopGetsCloser | main/player_service.c:1457-1719 | while a stop is waited for, some step of reader, cartridge or decoder brings both tasks closer to their idle bits |
| PipelineControl.StopCanFinish | main/player_service.c:1288-1325 | a stop always comes to an end, with both tasks idle, nothing queued and both permits free |
| PipelineControl.CanBeStopped | main/player_service.c:1310-1325 | so from every state, and a running track is marked as stopped |
| PipelineControl.StoppedCanStart | main/player_service.c:1858-1980 | a stopped pipeline can be started with any track at any of its chunks, under the next generation and with nothing left of the last track |
| PipelineControl.AnyTrackCanBeStarted | main/player_service.c:1858-1980 | skipping: so from every state of every run without a disturbed reset |
| PipelineControl.StartedTrackCanPlay | main/player_service.c:1457-1719 | a track just started can be brought to its end, all of it sent |
| PipelineControl.HeaderTakesABuffer | main/cartridge_service.c:310-330 | the header read fills the buffer whose turn it is and no other |
| PipelineControl.FailedReadGivesUp | main/player_service.c:1554-1616 | a read refused, not served or without its seek ends the track there and frees the permit |
| PipelineControl.FailedLookupGivesUp | main/player_service.c:1513-1532 | so does a failed lookup; a decoder that cannot open completes at once |
| PlayedAlbum.ChunksAgree | main/player_service.c:639-666 | the pipeline's chunks are the lookup table's chunks, byte for byte |
| PlayedAlbum.EveryInterleavingPlaysTheAlbum | main/player_service.c:1457-1856 | under every such interleaving, a built track read to its end is decoded to exactly the builder's packets |
| DamagedAlbum.DamageStaysInItsChunks | main/player_service.c:1721-1849 | a built file in which any set of chunks fails its CRC is accepted and decoded to the packets of all other seconds, in order |
| DamagedAlbum.OneDamagedChunk | main/player_service.c:1740-1749 | with one chunk damaged the album's packets come out with that second cut out |
| DamagedAlbum.EveryInterleavingSkipsDamage | main/player_service.c:1457-1856 | the same through the pipeline, under every such interleaving |
| PlaylistOrder.Playlist.BuildShuffleOrder | main/player_service.c:1379-1407 | for any random numbers a permutation whose first entry is not the current track |
| PlaylistOrder.SwapKeepsPermutation | main/player_service.c:1389-1406 | exchanging two entries keeps every track in the order |
| PlaylistOrder.Playlist.ScanPlaylist | main/player_service.c:1422-1455 | a fresh playlist of all tracks, or none when there are too many |
| PlaylistOrder.Playlist.SetPlaybackMode | main/player_service.c:2760-2779 | entering shuffle mode reshuffles and starts before the first entry |
| PlaylistOrder.Playlist.NextIndex | main/player_service.c:2109-2162 | the next track and the position it leaves, in every mode |
| PlaylistOrder.Playlist.PrevIndex | main/player_service.c:2171-2195 | the previous track and the position it leaves |
| PlaylistOrder.Playlist.StartTrack | main/player_service.c:1915-1925 | the track becomes current and, in shuffle mode, the position names it |
| PlaylistOrder.NextPosition | main/player_service.c:2129-2148 | a started next moves the position on by one around the order, despite the search |
| PlaylistOrder.PrevPosition | main/player_service.c:2179-2191 | a started previous moves it back by one |
| PlaylistOrder.ShuffleVisitsEachTrackOnce | main/player_service.c:2129-2148 | as many nexts as there are tracks visit every track exactly once, from any point |
| PlaylistOrder.FullTurnPosition | main/player_service.c:2129-2148 | where each of those nexts stands in the order |
| PlaylistOrder.PrevUndoesNext | main/player_service.c:2171-2195 | previous after next is the same track at the same position |
| PlaylistOrder.NextUndoesPrev | main/player_service.c:2109-2162 | next after previous likewise |
| PlaylistOrder.NextNeverRepeats | main/player_service.c:2129-2148 | with more than one track, next in shuffle mode never plays the same track again |
| PlaylistOrder.SingleRepeatStays | main/player_service.c:2117-2128 | a single track repeats until it is skipped by hand, and then the next follows |
| PlaylistOrder.PrevGoesBack | main/player_service.c:2171-2195 | outside shuffle mode previous goes back by one around the playlist |
| PlaylistOrder.SequentialFollows | main/player_service.c:2109-2162 | in sequential mode tracks follow each other in order, around and around |
| PlaylistOrder.SequentialVisitsEachTrackOnce | main/player_service.c:2109-2162 | so as many nexts as there are tracks play each exactly once |
| HistorySlots.First | main/play_history_service.c:416-468 | the lowest slot that fits, and none only when no slot fits |
| HistorySlots.Oldest | main/play_history_service.c:470-493 | a prunable album first seen no later than any other; none exactly when all prunable ones were first seen at the largest number |
| HistoryLaws.RemoveKeepsInv | main/play_history_service.c:495-524 | removing an album keeps every remaining track's album present |
| HistoryLaws.RemoveKeepsOthers | main/play_history_service.c:495-524 | it takes its own tracks and leaves every other record |
| HistoryLaws.OneAlbumFits | main/play_history_service.c:526-571 | the pigeonhole: one album's records and its cartridge's missing tracks are at most 999 |
| HistoryLaws.CrowdedHasAnother | main/play_history_service.c:546-571 | while there is not room, an album other than the preserved one can be pruned, so the fallback is unreachable |
| HistoryLaws.CapacityAlwaysSucceeds | main/play_history_service.c:546-571 | making room ends with success, leaves the preserved album's slot alone, prunes whole albums with their tracks only, oldest first |
| HistoryLaws.StuckIffAllAtLastSequence | main/play_history_service.c:470-571 | with any cache, nothing is pruned and there is no room if and only if there is none to begin with and every album was first seen at the largest sequence number |
| HistoryLaws.CapacitySucceedsIff | main/play_history_service.c:470-571 | with any cache, making room succeeds if and only if there is room once every album first seen below the largest sequence number is gone with its tracks |
| HistoryLaws.LateAlbumIsNeverPruned | main/play_history_service.c:546-602 | a cache with an early and a late album and a cartridge of 999 tracks: the early album is pruned and the sync still fails |
| HistoryEffects.LastPruneWasNeeded | main/play_history_service.c:546-571 | with any cache pruning stops as soon as there is room: without the album that went last there was none |
| HistoryLaws.PrunedRecords | main/play_history_service.c:546-571 | after pruning a record is what it was, or is gone and not the preserved album's |
| HistoryLaws.SyncTrackWorks | main/play_history_service.c:627-654 | syncing a track never lacks a slot, keeps its plays, and touches no other record |
| HistoryLaws.SyncTracksWork | main/play_history_service.c:627-654 | so for all tracks of the cartridge |
| HistoryLaws.RecordAlbumWorks | main/play_history_service.c:604-625 | the album is recorded once, with its first sighting kept |
| HistoryLaws.SyncSucceeds | main/play_history_service.c:573-659 | a sync always succeeds and leaves the cartridge's album and tracks recorded as they are, plays kept, other records kept or pruned whole |
| HistoryEffects.SyncKeepsOtherAlbums | main/play_history_service.c:573-659 | every other album's record is as before a sync, or gone |
| HistoryEffects.SyncGivesNumbersInTurn | main/play_history_service.c:604-654 | every sequence number a sync gives: to a new album, to this sighting, and to each new track in turn |
| HistoryEffects.NumbersGoRound | main/play_history_service.c:279-295 | numbers run from 1 to the largest and start over |
| HistoryRuns.PlayWorks | main/play_history_service.c:661-716 | a play is counted if and only if its track is recorded or the mounted cartridge has it |
| HistoryEffects.PlayChangesItsRecords | main/play_history_service.c:661-716 | a counted play changes count, file and last sighting of its track, the last sighting of its album, and no other field or record; a play not counted changes nothing but what its sync did |
| HistoryEffects.ChangesAreMarked | main/play_history_service.c:1155-1191 | whatever an event changes it marks to be saved |
| HistoryRuns.StepHasRoom | main/play_history_service.c:1155-1191 | no event ever runs out of slots |
| HistoryRuns.StepKeepsInv | main/play_history_service.c:1155-1191 | every event and restart keeps unique records, bounded indices and every track's album |
| HistoryRuns.StepCounts | main/play_history_service.c:661-716 | a record's plays after any operation: as before, none if made anew, one more if it was its play |
| HistoryRuns.RunKeepsInv | main/play_history_service.c:1155-1191 | the invariant holds in every state of every run |
| HistoryRuns.PlayCountsAreExact | main/play_history_service.c:661-716 | on every run each play count is the number of plays since its record was last made, modulo 2 to the 32 |
| HistoryOrder.MakeRoomNumbers | main/play_history_service.c:470-571 | eviction is first in, first out: each album pruned was recorded before every other album that stays |
| HistoryOrder.RecordAlbumNumbers | main/play_history_service.c:604-625 | a new album gets a number larger than every album's before it |
| HistoryOrder.StepKeepsOrder | main/play_history_service.c:1155-1191 | every operation, restarts included, keeps albums numbered in the order they were recorded |
| HistoryOrder.RunKeepsOrder | main/play_history_service.c:279-295 | so on every run from an empty cache, while sequence numbers are far from wrapping |
| HistoryImage.AlbumRoundTrip | main/play_history_service.c:73-80 | an album record reads back from its bytes |
| HistoryImage.TrackRoundTrip | main/play_history_service.c:82-91 | a track record reads back from its bytes |
| HistoryImage.ImageLoads | main/play_history_service.c:304-414 | loading an image gives the same records, in order, in the lowest slots, with the same next sequence number |
| HistoryImage.AcceptedIsImage | main/play_history_service.c:304-414 | anything the loader accepts is exactly the image of the records it reads |
| HistoryImage.SaveThenLoad | main/play_history_service.c:213-277 | a saved cache loads as its own records packed low, and saves again as the same bytes |
| HistoryImage.LoadThenSave | main/play_history_service.c:304-414 | an accepted image saves again byte for byte if and only if its next sequence number is not zero |
| HistoryImage.RepackedKeepsRecords | main/play_history_service.c:304-414 | saving and loading keeps the invariant and every album and track record |
| HistoryCache.PlayHistory.constructor | main/play_history_service.c:297-302 | an empty cache with its counters at zero |
| HistoryCache.PlayHistory.FindAlbumSlot | main/play_history_service.c:416-427 | the first slot with this checksum |
| HistoryCache.PlayHistory.FindTrackSlot | main/play_history_service.c:442-455 | the first slot with this checksum and index |
| HistoryCache.PlayHistory.FindOldestAlbumSlot | main/play_history_service.c:470-493 | the prunable album first seen longest ago |
| HistoryCache.PlayHistory.RemoveAlbumAt | main/play_history_service.c:495-524 | the album and its tracks are gone and the counters still count the slots in use |
| HistoryCache.PlayHistory.CountMissingTracks | main/play_history_service.c:526-544 | the number of cartridge tracks without a record |
| HistoryCache.PlayHistory.MakeCapacity | main/play_history_service.c:546-571 | the pruning loop ends, with the outcome and cache of the specification |
| HistoryCache.PlayHistory.TakeNextSequence | main/play_history_service.c:279-295 | hands out the next number and never zero |
| HistoryCache.PlayHistory.SyncTrackAt | main/play_history_service.c:627-654 | one track synced in place |
| HistoryCache.PlayHistory.SyncCurrentCartridge | main/play_history_service.c:573-659 | the in-place sync has the outcome and cache of the specification, on every error path too |
| HistoryCache.PlayHistory.ApplyCountablePlay | main/play_history_service.c:661-716 | the in-place count likewise, and listeners are told the recorded count |
| HistoryCache.PlayHistory.ResetCache | main/play_history_service.c:297-302 | empties every slot and starts sequence numbers over |
| HistoryCache.PlayHistory.BuildImage | main/play_history_service.c:213-277 | the bytes built are the cache's image and always fit the buffer set aside |
| HistoryCache.PlayHistory.LoadImage | main/play_history_service.c:304-414 | the loader's outcome and cache are those of the layout's specification; a refused image leaves an empty cache, and a zero sequence number is corrected and marked to be saved |
| HistoryCache.PlayHistory.ProcessEvent | main/play_history_service.c:1155-1191 | one event of the inbox: outcome and cache of the specification, never out of slots |
| HistoryImage.ImageSize | main/play_history_service.c:177-189 | an image's size is that of its counts and at most the buffer's |
| HistoryCommit.SettleBlock | main/play_history_service.c:944-983 | a block found right is left alone; on storage that keeps writes it is right afterwards |
| HistoryCommit.RewritePass | main/play_history_service.c:940-984 | a pass that finds every block right changed nothing and the file is the image, last partial block included |
| HistoryCommit.Flush | main/play_history_service.c:881-1011 | a dirty flush that succeeds leaves the file exactly the image, and only then clears the dirty flag; storage that keeps its writes needs at most two passes |
| HistoryCommit.CommitAndRestart | main/play_history_service.c:815-1011 | a commit that succeeds and a restart give the saved records back |
| CommitHandshake.StepKeepsInv | main/play_history_service.c:1029-1051 | every step keeps the flags in agreement with the flushes running and the answers given |
| CommitHandshake.FlushesNeverOverlap | main/play_history_service.c:1029-1043 | under every interleaving at most one flush runs and every earlier one has ended |
| CommitHandshake.ResultsAreFresh | main/play_history_service.c:1210-1266 | a requester returns only the outcome of a flush that began after its request |
| CommitHandshake.WaiterCanFinish | main/play_history_service.c:1210-1266 | no accepted request is lost: a waiting requester can always still be answered |
| CommitHandshake.RequestIsAcceptedIff | main/play_history_service.c:1242-1250 | a request is accepted if and only if nothing is pending or under way |
| CommitHandshake.AnyoneCanCommit | main/play_history_service.c:1210-1266 | from every state any task can have a commit: accepted, carried out by a flush of its own, and answered with that flush's outcome |
| CommitHandshake.DirectCommitIff | main/play_history_service.c:1226-1240 | a commit of the process task's own begins if and only if none runs, and its outcome is the result |
| CommitHandshake.CommitFlags.TryRequest | main/play_history_service.c:1242-1250 | a request is accepted exactly when none is pending or under way |
| CommitHandshake.CommitFlags.PollResult | main/play_history_service.c:1252-1265 | a poll returns exactly when nothing is pending or under way, with the last result |
| CommitHandshake.CommitFlags.BeginRequestedCommit | main/play_history_service.c:1029-1043 | begins a flush exactly when one is asked for and none is running |
| CommitHandshake.CommitFlags.BeginDirectCommit | main/play_history_service.c:1226-1240 | begins a flush exactly when none is running |
| CommitHandshake.CommitFlags.FinishCommit | main/play_history_service.c:1045-1051 | records the outcome and ends the flush |
| CompanionFrames.AtFront | main/companion_api_service.c:2730-2789 | what is taken off the front is at least one byte and no more than is there; what it is, `CompanionFrames.SentFramesParse` and the `CompanionResync` rows say |
| CompanionFrames.ParseContinues | main/companion_api_service.c:2726-2796 | parsing what was left with more bytes behind it is parsing it all at once |
| CompanionFrames.ChunkingIsInvisible | main/companion_api_service.c:2798-2818 | chunks dispatch the same frames, errors and skipped bytes as one parse of the whole stream if and only if no reset fires |
| CompanionFrames.ChunkingsAgree | main/companion_api_service.c:2798-2818 | two cuttings of one stream that fire no reset agree |
| CompanionFrames.RoomMeansNoReset | main/companion_api_service.c:2798-2818 | a stream that leaves room for the next chunk throughout fires no reset in any cutting |
| CompanionFrames.NoRoomMeansReset | main/companion_api_service.c:2798-2818 | for any other stream, a cutting into chunks of at most 512 bytes that the receiver gets wrong |
| CompanionFrames.CuttingIsInvisibleIff | main/companion_api_service.c:2726-2818 | every cutting of a stream is parsed as the whole if and only if the stream leaves room for the next chunk throughout |
| CompanionFrames.ShortFramesNeverReset | main/companion_api_service.c:2798-2818 | a stream in which no header waited behind declares a frame over 1537 bytes is parsed as the whole through every cutting into chunks of at most 512 bytes |
| CompanionFrames.LongFramesMayReset | main/companion_api_service.c:2798-2818 | for every longer length a frame of it, one behind it, and such a cutting of the two after which they are not what was received |
| CompanionFrames.SentFramesParse | main/companion_api_service.c:947-1001 | frames written one after the other parse as themselves, field for field |
| CompanionFrames.SentFramesAreRecovered | main/companion_api_service.c:947-1001 | frames of at most 1537 bytes, however many, come back field for field through every cutting into chunks of at most 512 bytes |
| CompanionFrames.SentFramesAreRecoveredIff | main/companion_api_service.c:947-1001 | frames come back through every such cutting if and only if each fits the buffer with what follows it up to 511 bytes |
| CompanionResync.NoiseIsSkipped | main/companion_api_service.c:2739-2746 | bytes in which no magic starts are given up one by one, and what is behind them is parsed as if it came first |
| CompanionResync.Resynchronises | main/companion_api_service.c:2726-2796 | noise in front of frames is skipped byte by byte and every frame comes back if and only if no magic starts inside the noise |
| CompanionResync.ResynchronisesThroughCuttings | main/companion_api_service.c:2726-2818 | the same through every cutting into chunks of at most 512 bytes, for frames that are recoverable without noise |
| CompanionResync.OtherVersionIsRefused | main/companion_api_service.c:2748-2755 | the header of another version is answered and uses up its twelve bytes; the frames behind it come back |
| CompanionResync.LongFrameIsRefused | main/companion_api_service.c:2757-2766 | so for a header that declares a frame over 2048 bytes |
| CompanionResync.ResetStartsOver | main/companion_api_service.c:2798-2818 | a chunk that overflows the buffer is lost with what waited, and everything after it is received as from an empty buffer |
| CompanionFrames.SendFrame | main/companion_api_service.c:947-1001 | the pieces handed to the link are a prefix of the frame, all of it on success, each within the link's payload size |
| CompanionFrames.Receiver.DispatchWhole | main/companion_api_service.c:2730-2789 | dispatches everything whole from the front and stops where the rest has to wait |
| CompanionFrames.Receiver.ParseRxBuffer | main/companion_api_service.c:2726-2796 | events and bytes left are those of one parse of the buffer |
| CompanionFrames.Receiver.ShiftDown | main/companion_api_service.c:2791-2795 | the unread bytes move to the front unchanged |
| CompanionFrames.Receiver.HandleRxChunk | main/companion_api_service.c:2798-2818 | a chunk is appended and parsed, or resets the buffer when it does not fit |
| CompanionFrames.Receiver.ForgetWaiting | main/companion_api_service.c:2865-2877 | a link that comes up or goes down empties the buffer |
| CompanionFrames.Receiver.ReceiveAll | main/companion_api_service.c:2726-2818 | the firmware's buffer over all chunks equals one parse of the whole stream while no reset fires |
| CompanionTlv.FirstOfKindIsFirst | main/companion_api_service.c:550-583 | the value found is of the first entry of its kind, and none is found exactly when there is none |
| CompanionTlv.EntriesOfEncoded | main/companion_api_service.c:550-583 | written entries read back, all of them and nothing else |
| CompanionTlv.EntriesReencode | main/companion_api_service.c:550-583 | the entries read, written again, are a prefix of the payload |
| CompanionTlv.FindTlv | main/companion_api_service.c:550-583 | the finder's loop returns the first entry of the kind, or nothing when there is none |
| CompanionTlv.Writer.AppendTlv | main/companion_api_service.c:448-463 | appends one whole entry exactly when it fits, and otherwise changes nothing |
| CompanionTlv.Writer.AppendString | main/companion_api_service.c:490-506 | likewise for a string, cut at 65535 bytes |
| CompanionTlv.Writer.RollBack | main/companion_api_service.c:1513-1523 | going back to an earlier length leaves exactly the entries written until then |
| CompanionTlv.Writer.AppendTrack | main/companion_api_service.c:1513-1523 | a track is listed with all five entries exactly when they fit, and otherwise not at all |
| CompanionTlv.Writer.AppendTracks | main/companion_api_service.c:1510-1525 | lists consecutive tracks until the limit, the end, or the first that cannot be read or does not fit |
| CompanionTlv.Writer.TrackPage | main/companion_api_service.c:1491-1528 | a page is well formed, lists at most eight consecutive whole tracks, stops early only at one that cannot be read or does not fit, and counts exactly those listed |
| CompanionAuth.StoreKeepsDistinct | main/companion_api_service.c:799-865 | storing a record keeps client ids distinct and forgets nobody |
| CompanionAuth.PressKeepsInv | main/companion_api_service.c:1108-1139 | progress `k` keeps meaning that the last `k` presses are the first `k` of the sequence |
| CompanionAuth.RevokeKeepsInv | main/companion_api_service.c:867-905 | revoking a client never leaves it authenticated |
| CompanionAuth.StepKeepsInv | main/companion_api_service.c:2838-2895 | every message keeps distinct ids, the count of records, an authenticated client's record, and matching progress |
| CompanionAuth.RunKeepsInv | main/companion_api_service.c:2838-2895 | so in every state of every run |
| CompanionAuth.AuthenticationIsEarned | main/companion_api_service.c:1314-1355 | the link comes to speak for a client only by its valid proof of the pending challenge, which is used up, or by its pairing completing |
| CompanionAuth.PressThatCompletes | main/companion_api_service.c:1108-1139 | a press that authenticates is the last of the whole sequence, in time, for the client being paired |
| CompanionAuth.SequencePairsIff | main/companion_api_service.c:1108-1139 | entering the right sequence pairs if and only if the presses counted before fit the sequence shifted by them |
| CompanionAuth.FalseStartIsMissed | main/companion_api_service.c:1108-1139 | from power-up with the sequence 1, 1, 2, 3: after one press of 1 too many the right sequence leaves the link unauthenticated; without it the link is authenticated |
| CompanionTrust.RevokedClientIsGone | main/companion_api_service.c:867-905 | a revocation succeeds if and only if the client is stored and the store works; then its record is gone, all others are as before and the link does not speak for it, and otherwise nothing has changed |
| CompanionTrust.RevokedAllAreGone | main/companion_api_service.c:907-945 | likewise for all clients: no record is left |
| CompanionTrust.StepRevokes | main/companion_api_service.c:2838-2895 | so for the messages that ask for it, over the link only from an authenticated client |
| CompanionTrust.RevokedStaysOut | main/companion_api_service.c:1291-1355 | on every run a client that is not stored stays so, and the link never speaks for it, until a pairing of it can complete |
| CompanionTrust.OnlySecretOrPairingAuthenticates | main/companion_api_service.c:1314-1355 | the link comes to speak for a client only by the HMAC of the pending nonce under that client's secret, or by its pairing, whose record is then the one stored |
| CompanionTrust.StoreRemembers | main/companion_api_service.c:799-865 | storing succeeds if and only if the client has a slot or one is free and the store works; then its record is this one and all others are as before |
| CompanionTrust.CompletedPairing | main/companion_api_service.c:1085-1106 | a pairing that completes stores exactly its own record and authenticates; one that cannot be stored changes nothing |
| CompanionTrust.PairingIsAsRequested | main/companion_api_service.c:1248-1289 | a pairing request is accepted if and only if its fields are valid; what is pending is those fields with a deadline of 12000 ticks |
| CompanionTrust.MissingFieldIsRefused | main/companion_api_service.c:1248-1289 | a request without one of its four fields is refused |
| CompanionTrust.OnlyTrustedAreChallenged | main/companion_api_service.c:1291-1312 | a client is challenged if and only if it is stored |
| CompanionTrust.ProofDecides | main/companion_api_service.c:1314-1355 | a proof is accepted if and only if it is the challenged client's, still stored, and the HMAC of the nonce under its secret; otherwise nothing changes |
| CompanionTrust.PairedClientComesBack | main/companion_api_service.c:1085-1355 | the whole way: request, presses, authentication, a dropped link, challenge and proof bring a client in, out and in again under its own secret |
| CompanionTrust.ConfirmCompletesPairing | main/companion_api_service.c:2850-2852 | a confirmation at the console completes a pending pairing |
| CompanionTrust.CancelEndsPairing | main/companion_api_service.c:2853-2858 | cancelling ends the pairing and nothing else |
| CompanionTrust.DisconnectEndsAuthentication | main/companion_api_service.c:2870-2877 | a dropped link ends authentication and challenge and nothing else |
| CompanionTrust.LatePairingIsGivenUp | main/companion_api_service.c:1108-1139 | a pairing past its deadline is given up by the next press or heartbeat, and only then |
| CompanionTrust.FailedStoreKeepsPairing | main/companion_api_service.c:1108-1139 | after a last press whose store fails the pairing stays pending and further presses are ignored |
| CompanionAuth.FindRecord | main/companion_api_service.c:769-797 | a slot that holds this client, and none only if no slot does |
| CompanionAuth.Companion.StoreRecord | main/companion_api_service.c:799-865 | a record replaces its client's, or takes a free slot, only if the commit succeeds |
| CompanionAuth.Companion.CompletePairing | main/companion_api_service.c:1085-1106 | authenticates only after the record is stored |
| CompanionAuth.Companion.ApplyPairingButton | main/companion_api_service.c:1108-1139 | one press: outcome and state of the specification |
| CompanionAuth.Companion.HandlePairBegin | main/companion_api_service.c:1248-1289 | starts a pairing from a complete and valid request only |
| CompanionAuth.Companion.HandleAuthChallenge | main/companion_api_service.c:1291-1312 | a challenge is pending only for a trusted client |
| CompanionAuth.Companion.HandleAuthProof | main/companion_api_service.c:1314-1355 | accepts exactly the HMAC of the pending nonce under the challenged client's secret |
| CompanionAuth.Companion.RevokeClient | main/companion_api_service.c:867-905 | a revocation that commits removes the record and the client's authentication |
| CompanionAuth.Companion.RevokeAllClients | main/companion_api_service.c:907-945 | so for all clients |
| CompanionAuth.Companion.HandleRequest | main/companion_api_service.c:2599-2660 | a request of the link takes exactly the specified step |
| CompanionAuth.Companion.ProcessMsg | main/companion_api_service.c:2838-2895 | the service task's dispatch takes exactly the specified step |
| RequestRate.WaitCoversWindow | main/lastfm_service.c:839-865 | a wait computed from wrapped ticks covers the window in true time |
| RequestRate.RecordKeepsSpacing | main/lastfm_service.c:867-876 | a request recorded after the wait keeps any four requests ten seconds apart |
| RequestRate.StampsStep | main/lastfm_service.c:867-876 | the ring always holds the last three requests' ticks |
| RequestRate.RateLimiter.WaitForRequestRateLimit | main/lastfm_service.c:839-865 | after the wait a request may be recorded |
| RequestRate.RateLimiter.RecordRequest | main/lastfm_service.c:867-876 | recording keeps ring, count and index in step with all requests so far |
| RequestRate.RateLimiter.Requests | main/lastfm_service.c:1512-1513 | on every run, across any number of counter wraps, any four consecutive requests span at least the window |
| ScrobbleQueue.MakeRoomKeeps | main/lastfm_service.c:1326-1345 | dropping the oldest keeps order and accounts for what was dropped |
| ScrobbleQueue.EnqueueKeeps | main/lastfm_service.c:1586-1640 | a new scrobble goes behind all others |
| ScrobbleQueue.PutBackKeeps | main/lastfm_service.c:1297-1364 | a retry goes back in front of all others, where its age belongs, at the cost of the oldest queued entry when the queue is full |
| ScrobbleQueue.StepKeeps | main/lastfm_service.c:2206-2232 | every operation keeps order, the bound of 512 and the accounts |
| ScrobbleQueue.RunKeepsInv | main/lastfm_service.c:2128-2236 | so in every state of every run |
| ScrobbleQueue.ScrobblesInOrderExactlyOnce | main/lastfm_service.c:1297-1389 | on every run the item in flight and the queue are in submission order, at most 512, and every accepted scrobble is exactly once queued, in flight, consumed or dropped |
| ScrobbleQueue.RetryComesNext | main/lastfm_service.c:1297-1364 | a failed scrobble that is put back is the next to be sent, and with room nothing is lost by it |
| ScrobbleQueue.LedgerMoves | main/lastfm_service.c:1297-1389 | every operation's entries: what is accepted, what is consumed, and that only a full queue or a lock not obtained drops anything |
| ScrobbleQueue.NothingDroppedWithRoom | main/lastfm_service.c:2128-2236 | on a run that meets no full queue and always gets the lock nothing is ever dropped |
| ScrobbleQueue.Sender.SendScrobble | main/lastfm_service.c:1586-1640 | enqueues at the back, dropping the oldest when full |
| ScrobbleQueue.Sender.ReceiveScrobble | main/lastfm_service.c:1366-1389 | takes the oldest into flight |
| ScrobbleQueue.Sender.RequeueScrobble | main/lastfm_service.c:1297-1364 | puts the item in flight back in front |
| ScrobbleQueue.Sender.ProcessScrobble | main/lastfm_service.c:2206-2232 | one turn of the consumer: sent or refused items leave, others are put back |
| Bytes.Le32RoundTrip | tools/make_album.py:380-388 | a little-endian word reads back |
| Bytes.Le32Inverse | main/player_service.c:1165-1176 | and every four bytes are the word they read as |

## Left out

- Pipeline, service: launching a track, which raises the generation, resets the queues and sends both commands, is one step; the waits for idle tasks do not time out.
- Pipeline, generations: they are unbounded; the 32-bit wrap past zero is not modelled. A task that took its command between an idle test and the launch of another track works on for that track, where in the code it stops at the older generation; of such runs only the laws of completions speak.
- Pipeline, decoder: a stop inside the packet loop of a chunk abandons the chunk as a whole; PCM output, volume and Opus decoding are foreign code.
- Playlist, fallback: the random choice when no shuffle order is allocated; the order has static storage and is there whenever a playlist is.
- History, event ring: the merging of equal events is not modelled; it does not keep the meaning of plays between two clears.
- History, power loss: a restart is modelled as loading what a commit just before it saved; a loss before a commit starts a new run from the older image.
- History, cartridge: metadata does not change during one sync or play; file opening and sizing before an image is loaded are foreign code.
- Commit, flushing: closing and flushing the file may fail but do not alter it.
- Companion, requests: of the request handlers only pairing, authentication, revocation and the track page are modelled; the others read other services and reply.
- Companion, time: a deadline is a 32-bit tick count and is compared as the code compares it, wrap included; a pairing left pending across a disconnect stays pending as in the code.
- Companion, records: loading the trusted records at start-up; runs start from any store with distinct ids.
- Last.fm: HTTP, JSON, login, now-playing messages and timers; a scrobble's fate is an arbitrary outcome.
- Builder: ffmpeg, cover art, metadata files and prompts.
- Player: saved playback state, seeking by seconds, volume, the console, Bluetooth, I2S, Wi-Fi, power and script services: thin layers over foreign code.
