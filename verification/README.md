# Verified models of the office tile server's core

The server renders office documents as tiles and streams them to browsers. This project models
the parts of it that carry real obligations and proves what they are for. Every file is one module.

- **Options, Decimals, Arithmetic.** Optional values, decimal numerals, and facts about products and
  quotients that several of the others use.
- **Pixels, DeltaCodec, DeltaEncoder, DeltaShape, DeltaCache, DeltaRuns.** The delta encoder turns the last
  bitmap sent for a tile into the next one with row copies and pixel runs. The browser's decoder is
  the reference: what it shows after applying the bytes is proved to be the new bitmap, exactly when
  no copy reads a visible row from below the old bitmap. That happens only where `char` is signed
  and the bitmap has 256 rows; a concrete pair of bitmaps shows it. A changed row is sent as a copy
  exactly if it equals some row of the old bitmap, and a pixel run is never longer than it must be.
  Every channel shown is the one rendered. Around the encoder sits a bounded
  cache, looked up and updated in two separate critical sections. In every interleaving of renders
  and evictions the client always shows the last bitmap rendered if and only if no delta is sent right
  after a bitmap of odd width and none is wrong in the way just described.
- **QueueMessages, QueueSpec, QueueMeaning, QueueCoalescing, QueueService, QueueCombining, QueueRuns,
  QueueTiles, TileQueue.** The kit's message queue
  merges text input, joins invalidation rectangles, replaces superseded messages, picks tiles near
  the cursors and combines them. Proved: in every run what is handed out and
  still queued means, to every window, what was put, no invalidated point is lost, gets conserve work,
  nothing that is no tile is reordered or starved. Each tile asked for is rendered or still queued,
  itself or one that stands for it, exactly when no put drops a request that nothing stands for.
  Nothing that could have been joined or replaced is ever queued together, and a get combines every
  tile it can.
- **Words64, Rotations, SpookyMix, SpookyHash.** The buffered streaming hash equals the one-shot hash for every
  fragmentation, whatever the mixing functions are, with the hash asked for at any point in between.
  Spooky's own mixing never makes two different states equal, and every word of a message, its length
  and the seeds change the state it ends in.
- **EditDistance.** The table of the configuration checker holds the least number of edits, the
  diagonal shortcut included.
- **FakeSocketSpec, FakeSocketRuns, FakeSocketResults, FakeSockets.** The in-process socket layer as a
  table changed by critical sections, over every interleaving of threads that use it as documented:
  what each call returns and each poll reports follows from the history of the connection alone.
- **RenderPool, RenderRuns, RenderGeometry.** The encoding pool in every interleaving, who wakes up a
  waiting run and when it may return, the packing of the pool's output, and the place of each tile
  in the rendered pixmap.
- **StateReplay.** What a session remembers for an inactive user, and its replay.
- **PixmapCache.** The list of window hashes the server keeps in step with the browser's images.
- **Clipboard.** Printing a clipboard and reading it back.

Code that changes state in place is a class or a method with a loop, proved equal to a function of
the old state; the main results are lemmas about those functions and about runs of steps.

What the proofs found in the code:

- A delta of a 256-row bitmap can be wrong where `char` is signed (`DeltaEncoder.TallBitmapGoesWrong`):
  the test of kit/Delta.hpp:351-352 compares bytes, so source row 255 is followed by row 0, and the
  client reads row 256 instead.
- A render with odd width does not touch the cache, so a later even render at the same location is
  compared with a bitmap the client no longer shows. A delta that is right in itself is wrong
  for the client exactly then (`DeltaRuns.ClientRightUnlessStale`), whatever the pixels are
  (`DeltaRuns.OddRenderLeavesStaleBitmap`). This is about a client whose canvas takes the size of
  each keyframe. The browser's canvas keeps the one size of all tiles and reads as many bytes of a
  keyframe as that needs (browser/src/layer/tile/CanvasTileLayer.js:6796-6798, 6833-6835), so a
  bitmap of another size is not shown right there in the first place. That the number of pixels
  alone is wrong, width aside, is `DeltaRuns.StaleDeltaHasWrongSize`.
- `run` of the pool can return while a job is in flight if and only if it decided not to use the
  workers and one of them has a job already or could take one, because a worker may wake up by
  itself (`RenderRuns.RunMayReturnEarly`). To the one who pushes jobs to an idle pool this can happen
  whenever there is a worker and a job (`RenderRuns.SomeJobMayBeLeftBehind`).
- Tile requests are compared without what follows the version, and the mode does follow it: a
  request for one mode drops a queued one for another, which then nothing stands for
  (`QueueTiles.OtherModeDrops`). Tiles are never lost if and only if no put drops such a request
  (`QueueTiles.TilesKeptUnlessDropped`).
- The comparison is of a prefix that ends with the wire id, so a request under wire id 1 replaces one
  under 12, and two equal requests can be queued (`QueueMeaning.ShadowedTile`). A put leaves at most
  one message of every register if and only if this does not happen
  (`QueueMeaning.PutKeepsOnePerRegister`).
- A waiting `connect` can still return if and only if the end accepted for it has not been closed
  (`FakeSocketRuns.ConnectReturnsUnlessClosed`); if it has, it waits for ever.
- After the other end was shut down a poll reports a hangup, but a read reports the end of the stream
  only if a record was taken since, or the other end was closed; otherwise it is told to try again
  (`FakeSocketResults.ShutdownUnseen`).
- A comment or redline that arrives while the user is inactive and mentions `.uno:ModifiedStatus` is
  delivered at once and again by the replay (`StateReplay.LoggedShownTwice`).
- After a failed PNG encoding the server answers the next paint of that window with `nopng` although
  the client has no image (`PixmapCache.FailureIsMissed`); every paint is shown if and only if no
  encoding failed (`PixmapCache.EveryPaintIsShown`).
- common/SpookyV2.h:107 says that `Final` does not modify the state. It does pad the buffer in
  place; what it writes lies behind the bytes buffered, which is why updating afterwards is safe.

## Model

| member | source | states |
|---|---|---|
| Pixels.UnpremultCopy | kit/Delta.hpp:263-304 | the copy with its repeated-pixel shortcut writes the per-pixel conversion of every source pixel, in order; premultiplying the four bytes of a pixel, red first and alpha last, gives the rendered pixel again |
| Pixels.UnscaleFits | kit/Delta.hpp:297-299 | a channel that does not exceed alpha divides to a byte, nothing is truncated |
| Pixels.UnscaleRescale | kit/Delta.hpp:297-299 | multiplying the divided channel by alpha again, rounding, recovers it |
| Pixels.PremultUnpremult | kit/Delta.hpp:284-301 | each channel of what is shown is the rendered channel, and alpha is alpha: multiplying red, green and blue by alpha again and packing the word gives the rendered pixel |
| Pixels.WireAt | kit/Delta.hpp:287-302 | the bytes of a pixel are red, green, blue, alpha, in this order |
| Pixels.UnpremultInjective | kit/Delta.hpp:284-301 | two rendered pixels shown alike are the same pixel |
| Pixels.UnwireWire | kit/Delta.hpp:287-302 | the four bytes per pixel are read back as the image written |
| DeltaCodec.DecodeSerialized | browser/src/layer/tile/CanvasTileLayer.js:6874-6948 | the client's loop over the bytes of a terminated list of commands applies exactly those commands, in order, and stops right behind the terminator |
| DeltaCodec.StreamOfDeltas | browser/src/layer/tile/CanvasTileLayer.js:6804-6868 | several deltas sent back to back are applied in turn, each to the image left by the one before |
| DeltaCodec.CopyRowsByRow | browser/src/layer/tile/CanvasTileLayer.js:6903-6919 | a copy paints rows dest.. with rows src.. of the old image and no other row |
| DeltaCodec.SpliceByRow | browser/src/layer/tile/CanvasTileLayer.js:6920-6935 | a run overwrites its pixels of its row and nothing else |
| DeltaEncoder.CopyWithCrc | kit/Delta.hpp:86-101 | the copy equals the source and the hash is that of its words, two pixels at a time, wrapping at 64 bits |
| DeltaEncoder.MakeDelta | kit/Delta.hpp:306-451 | fails on different sizes, otherwise emits the bytes of the planned commands, closed by a terminator unless empty |
| DeltaEncoder.MatchRow | kit/Delta.hpp:340-370 | the loop finds the row that the planned hunt finds, and either patches the count of the last copy in place or appends a copy |
| DeltaEncoder.HuntMissesNothing | kit/Delta.hpp:342-346 | wherever the rotation starts in a run of the encoder, a hunt that finds nothing has compared every row |
| DeltaEncoder.HuntDecides | kit/Delta.hpp:340-372 | a row is sent as a copy if and only if it equals some row of the previous bitmap |
| DeltaEncoder.EmitRuns | kit/Delta.hpp:374-408 | scanning a changed row for equal and different stretches emits the planned pixel runs |
| DeltaEncoder.RunsPaint | kit/Delta.hpp:377-408 | applying the runs of a row turns the old row into the new one and touches no other row |
| DeltaShape.RunsAreTight | kit/Delta.hpp:377-408 | every run starts at a changed pixel, bridges equal pixels among its first three only, and ends at the end of the row, at the next equal pixel or at 254 pixels |
| DeltaShape.HuntTakesFirst | kit/Delta.hpp:342-346 | the first matching row of the rotation is taken |
| DeltaShape.HuntGoesOn | kit/Delta.hpp:344-359 | below a row that starts a new copy, the rotation starts at the row behind the one copied |
| DeltaShape.ExtendsMeans | kit/Delta.hpp:348-357 | the byte test accepts exactly the next row, except where a signed char steps from 127 to 128 or from 255 to 0 |
| DeltaShape.CopyGrows | kit/Delta.hpp:334-372 | where char is unsigned, a row adds no command if and only if it did not change or is the next row of a copy that ends right above it |
| DeltaShape.CrcSeesOneWord | kit/Delta.hpp:86-101 | rows that differ in one pair of pixels have different hashes |
| DeltaEncoder.ExtensionIsNext | kit/Delta.hpp:348-357 | a row that passes the byte test lies right behind the last copy, the count stays below 255, and the source row is the next one unless the copy leaves the bitmap |
| DeltaEncoder.DeltaRoundTrip | kit/Delta.hpp:306-451 | a client showing the previous bitmap shows the current one after the delta if and only if every row taken from below the bitmap was blank anyway |
| DeltaEncoder.NeverOvershoots | kit/Delta.hpp:326-357 | no row is taken from below the bitmap where char is unsigned or the height is at most 255 |
| DeltaEncoder.DeltaAlwaysRoundTrips | kit/Delta.hpp:306-451 | so the round trip is unconditional where char is unsigned or the height is at most 255 |
| DeltaEncoder.EmptyIffEqual | kit/Delta.hpp:334-338 | the delta is empty exactly when the two bitmaps are equal |
| DeltaEncoder.TallBitmapGoesWrong | kit/Delta.hpp:350-352 | a pair of 256-row bitmaps whose delta is wrong where char is signed |
| DeltaCache.ReplyShows | kit/Delta.hpp:546-615 | a client showing the cached bitmap shows the new one after the reply, keyframe, delta or nothing, unless the reply is a delta that takes a visible row from below |
| DeltaCache.ReplyKind | kit/Delta.hpp:546-615 | a render is sent whole if and only if nothing is cached, it is forced or the sizes differ, and as nothing if and only if otherwise it equals the cached bitmap |
| DeltaCache.CropPixel | kit/Delta.hpp:126-135 | each pixel of a tile is the pixmap's at the tile's place |
| DeltaCache.SizeAfter | kit/Delta.hpp:242-260 | after rebalancing the cache holds at most its limit, exactly three quarters of it if the limit was exceeded |
| DeltaCache.LostPrefix | kit/Delta.hpp:249-258 | erasing the first n entries in wire id order is losing exactly the n oldest |
| DeltaCache.DeltaGenerator.RebalanceDeltasT | kit/Delta.hpp:242-260 | the cache loses exactly its oldest entries, as many as exceed three quarters of the limit when the limit is exceeded, or all |
| DeltaCache.DeltaGenerator.OldestFirst | kit/Delta.hpp:249-256 | every cached location once, by wire id |
| DeltaCache.DeltaGenerator.RebalanceDeltas | kit/Delta.hpp:457-463 | a positive limit replaces the old one before evicting |
| DeltaCache.DeltaGenerator.SetSessionCount | kit/Delta.hpp:466-469 | 24 entries per session, one session at least |
| DeltaCache.DeltaGenerator.DropCache | kit/Delta.hpp:471-475 | nothing stays cached |
| DeltaCache.DeltaGenerator.FindOrInsert | kit/Delta.hpp:513-525 | the first critical section: a new location is cached, a cached one is claimed, nothing else changes |
| DeltaCache.DeltaGenerator.CompareAndReplace | kit/Delta.hpp:527-540 | outside the lock: the delta against the claimed bitmap unless forced or mis-sized; the entry gets the new bitmap, the cache only if the entry was not evicted |
| DeltaCache.DeltaGenerator.CreateDelta | kit/Delta.hpp:490-540 | with nothing in between: a delta against the cached bitmap unless odd, new, forced or mis-sized; the cropped bitmap replaces the cached one unless the width is odd |
| DeltaCache.DeltaGenerator.CompressOrDelta | kit/Delta.hpp:546-615 | the message for a rendered tile and the cache it leaves |
| DeltaRuns.StepKeepsCacheRight | kit/Delta.hpp:498-539 | what is cached, or was found by a render in progress, is the last bitmap rendered there, unless that had an odd width |
| DeltaRuns.DeliveredIsCached | kit/Delta.hpp:513-540 | what is cached where a render was just delivered is that render under its own wire id; one evicted meanwhile is not cached again, and no other location changes |
| DeltaRuns.StepKeepsClientRight | kit/Delta.hpp:490-615 | a step keeps every client right if and only if it sends no stale delta and no unfaithful one |
| DeltaRuns.ClientFollows | kit/Delta.hpp:242-615 | in every interleaving, whatever is evicted and whatever sizes are mixed, the client always shows the last bitmap rendered at each location if and only if no delta was stale and none unfaithful |
| DeltaRuns.ClientRightUnlessStale | kit/Delta.hpp:242-615 | from an empty start, for unsigned char or tiles of at most 255 rows and a client whose canvas takes each keyframe's size, this is so if and only if no delta is sent right after a bitmap of odd width |
| DeltaRuns.EvenTilesAlwaysRight | kit/Delta.hpp:242-615 | with even widths the client is always right |
| DeltaRuns.OddRenderLeavesStaleBitmap | kit/Delta.hpp:498-502 | an even, an odd and again an even bitmap of the first one's size: whatever their pixels, the client ends up wrong |
| DeltaRuns.StaleDeltaHasWrongSize | kit/Delta.hpp:498-502 | the number of pixels the client then has is right if and only if the odd bitmap had as many as the new one, so never where heights agree |
| DeltaRuns.AtOnceIsCompressOrDelta | kit/Delta.hpp:546-615 | the two steps taken at once store and send what compressOrDelta does |
| DeltaRuns.RebalanceIsEviction | kit/Delta.hpp:242-260 | rebalancing and dropping are evictions of the state machine |
| QueueMeaning.PutKeepsMeaning | common/MessageQueue.hpp:91-246 | for every view and window id, the queued key, mouse, windowkey and text events, adjacent texts joined and adjacent removals summed, are the old ones followed by the new one |
| QueueMeaning.SumWraps | common/MessageQueue.hpp:229-237 | the joined numbers are the true sums, but for wrapping around |
| QueueCoalescing.PutText | common/MessageQueue.hpp:135-183 | a text joins the last queued one of its view and window, old text first, if and only if behind it no single-token message, input event of the view or removal of the view is queued; otherwise it is appended |
| QueueCoalescing.PutRemoval | common/MessageQueue.hpp:192-246 | the same for removals, which are stopped by texts of the view |
| QueueCoalescing.PutNews | common/MessageQueue.cpp:335-438 | a callback takes out the first queued one of its view and .uno: command, kind, or kind and other view, and nothing else |
| QueueCoalescing.PutTile | common/MessageQueue.cpp:103-128 | a tile request takes out the first queued one whose text up to the version begins with its own |
| QueueCoalescing.PutOther | common/MessageQueue.cpp:100-101 | anything else, incomplete texts included, is only appended |
| QueueCoalescing.SweepDecides | common/MessageQueue.cpp:276-312 | a queued invalidation is taken out if and only if it is of the same view, part and mode and the smallest rectangle around the new one and those taken out before it covers it, or touches it and is within 15360 by 7680 together with it |
| QueueCoalescing.PutInvalidation | common/MessageQueue.cpp:218-330 | the smallest rectangle around the new one and all taken out is appended for them |
| QueueCoalescing.RunKeepsCoalesced | common/MessageQueue.cpp:25-613 | in every run of puts and gets no two texts or removals of one window are queued without something between them that stops the later one, and no callback is queued with one that it outdates |
| QueueMeaning.SweepLosesNothing | common/MessageQueue.cpp:218-315 | no point of a queued or new rectangle is lost by merging |
| QueueMeaning.SweepIsTight | common/MessageQueue.cpp:276-312 | a merged rectangle is at most 15360 by 7680 and each of its sides is a side of the new rectangle or of one that it replaces |
| QueueMeaning.PutKeepsInvalid | common/MessageQueue.cpp:84-98 | after any put, every view, part and mode has every invalidated point it had, and the new ones |
| QueueMeaning.PutKeepsOnePerRegister | common/MessageQueue.cpp:103-128 | a tile request, a state of one command, a cursor callback stay queued at most once if and only if the new message does not replace one whose key its own only begins while its own register is queued; the latest is always queued |
| QueueMeaning.OnlyTilesAreShadowed | common/MessageQueue.cpp:117-127 | only tile requests can do so |
| QueueMeaning.ShadowedTile | common/MessageQueue.cpp:117-127 | a request under wire id 1 replaces the one under 12 and leaves its own earlier self queued |
| QueueService.GetConserves | common/MessageQueue.cpp:482-613 | the messages taken by a get and those still queued are exactly those queued before |
| QueueService.TwinIsRendered | common/MessageQueue.cpp:582-606 | a tile taken but dropped has an answered twin of the same part, mode, sizes and position |
| QueueService.CombinedIsWellFormed | common/MessageQueue.cpp:589-609 | the equalities asserted of combined tiles hold, and no place occurs twice |
| QueueService.MostUrgentFirst | common/MessageQueue.cpp:507-543 | the answer starts with the first of the most urgent tiles before the first message that is no tile |
| QueueCombining.PriorityIsNewest | common/MessageQueue.cpp:447-460 | the priority of a tile is the place of the newest view whose cursor touches it, -1 if none does |
| QueueCombining.GetCombines | common/MessageQueue.cpp:542-571 | no plain tile stays queued that is of one view, part, mode and sizes with the first one answered, on a touching row and at most sixteen columns away |
| QueueCombining.GetAnswersAll | common/MessageQueue.cpp:542-606 | each such tile that was queued is answered, itself or one at its place |
| QueueCombining.GetAnswers | common/MessageQueue.cpp:507-609 | the answer is the most urgent tile followed by all that go with it in queue order, the first at each place; it is a plain message if and only if nothing went with it |
| QueueCombining.DedupIsFirsts | common/MessageQueue.cpp:582-606 | dropping duplicates pair by pair leaves the first tile at each place, in order |
| QueueCombining.GetPreview | common/MessageQueue.cpp:490-504 | a preview at the front is answered alone and the previews right behind it go to the back, in order |
| QueueService.GetKeepsOrder | common/MessageQueue.cpp:482-540 | the messages that are no tiles lose at most their head and are never reordered |
| QueueService.PutPlace | common/MessageQueue.cpp:25-101 | a put never moves a message back |
| QueueService.GetPlace | common/MessageQueue.cpp:482-571 | a get returns a message that is no tile or moves it strictly forward |
| QueueService.NoStarvation | common/MessageQueue.cpp:25-101 | in every run of puts and gets, a message that is no tile with k ahead is returned within k+1 gets unless a put supersedes it |
| QueueRuns.NormalEnd | common/MessageQueue.hpp:135-246 | joining adjacent events of a part first changes nothing |
| QueueRuns.OperationKeepsMeaning | common/MessageQueue.cpp:25-613 | for every window, what an operation hands out followed by what it leaves queued means what was queued followed by what it put |
| QueueRuns.RunKeepsMeaning | common/MessageQueue.cpp:25-613 | in every run of puts and gets, for every view and window id, the events handed out followed by those queued are all events put, in order, adjacent texts and removals joined |
| QueueRuns.RunKeepsInvalid | common/MessageQueue.cpp:25-613 | in every run, each invalidated point of a view, part and mode is handed out or still queued |
| QueueTiles.StandsForReplaced | wsd/TileDesc.hpp:170-206 | a tile request stands for the one it replaces if and only if both are of one mode and of one preview or none |
| QueueTiles.PutKeepsTiles | common/MessageQueue.cpp:103-128 | a put loses no tile asked for if and only if it drops no request that neither the new message nor a queued one stands for |
| QueueTiles.OtherModeDrops | common/MessageQueue.cpp:103-128 | such as a request for another mode of the same tile |
| QueueTiles.GetKeepsTiles | common/MessageQueue.cpp:482-613 | a get renders each tile asked for, itself or one that stands for it, or leaves it queued |
| QueueTiles.TilesKeptUnlessDropped | common/MessageQueue.cpp:25-613 | in every run of puts and gets, no step loses a tile if and only if no put drops such a request |
| QueueTiles.EachTileIsServed | common/MessageQueue.cpp:25-613 | in such a run each tile asked for is rendered by some get, itself or one that stands for it, or still queued |
| TileQueue.TileQueue.UpdateCursorPosition | common/MessageQueue.hpp:286-308 | the view gets the cursor and becomes the newest, the others keep their order |
| TileQueue.TileQueue.RemoveCursorPosition | common/MessageQueue.hpp:310-319 | the view is forgotten, the others keep their order |
| TileQueue.TileQueue.Priority | common/MessageQueue.cpp:447-460 | the newest view whose cursor the tile touches, or -1 |
| TileQueue.TileQueue.CombineTextInput | common/MessageQueue.hpp:135-183 | the backward scan takes out the text it may merge with, and stops at what must not be overtaken |
| TileQueue.TileQueue.CombineRemoveText | common/MessageQueue.hpp:192-246 | the same for removals, whose numbers are added as ints |
| TileQueue.TileQueue.RemoveRegister | common/MessageQueue.cpp:117-127 | the first queued message that the new one replaces is erased: a tile request whose bytes up to the version begin with those of the new one, or the message of the same register |
| TileQueue.TileQueue.MergeInvalidations | common/MessageQueue.cpp:218-330 | the erasing loop, in int arithmetic, equals one pass with a growing rectangle |
| TileQueue.TileQueue.PutOne | common/MessageQueue.cpp:77-100 | the queue after a put, for every kind of message |
| TileQueue.TileQueue.PutAny | common/MessageQueue.cpp:61-76 | a combined request is broken up and put tile by tile |
| TileQueue.TileQueue.DeprioritizePreviews | common/MessageQueue.cpp:462-480 | the previews at the front go to the back in order |
| TileQueue.TileQueue.FindPrioritized | common/MessageQueue.cpp:507-538 | the position found holds the first most urgent tile, early exit included |
| TileQueue.TileQueue.TakeCompanions | common/MessageQueue.cpp:542-571 | all tiles that combine with the first are taken, the others stay in order |
| TileQueue.DropDuplicates | common/MessageQueue.cpp:582-606 | the nested erasing loops keep the first tile at each place |
| TileQueue.TileQueue.GetImpl | common/MessageQueue.cpp:482-613 | the answer and the queue after a get |
| TileQueue.TileQueue.Pop | common/MessageQueue.hpp:65-70 | nothing from an empty queue, otherwise a get |
| SpookyHash.Hash128 | common/SpookyV2.cpp:147-206 | the one-shot loop absorbs all whole blocks and ends with the padded rest |
| SpookyHash.AbsorbAppend | common/SpookyV2.cpp:177-194 | absorbing whole blocks may be cut at any block boundary |
| SpookyHash.Stream.Init | common/SpookyV2.cpp:211-217 | a fresh stream stands for the empty message |
| SpookyHash.LongUpdate | common/SpookyV2.cpp:243-320 | mixing the stuffed buffer, then all whole blocks, then stuffing the tail away represents the longer message |
| SpookyHash.Stream.Update | common/SpookyV2.cpp:221-321 | the stream then stands for its message with the fragment appended |
| SpookyHash.LongFinal | common/SpookyV2.cpp:336-369 | ending from the buffered one or two blocks is the one-shot hash |
| SpookyHash.Stream.Final | common/SpookyV2.cpp:325-370 | the one-shot hash of the whole message, and the stream still stands for it although its buffer was padded |
| SpookyHash.HashFragments | common/SpookyV2.h:90-114 | for every list of fragments, every hash asked for in between is that of the fragments so far |
| SpookyHash.HashSubBuffer | common/SpookyV2.cpp:372-391 | a rectangle hashed row by row gives the hash of its rows joined, 0 if it is larger than the buffer |
| SpookyMix.MixInjective | common/SpookyV2.h:137-155 | mixing in a block never makes two different states equal |
| SpookyHash.AbsorbInjective | common/SpookyV2.cpp:177-194 | nor does absorbing any number of blocks |
| Rotations.RotInjective | common/SpookyV2.h:118-121 | every rotation can be undone |
| SpookyMix.MixWordMatters | common/SpookyV2.h:137-155 | blocks that differ in one word are mixed into different states |
| SpookyMix.LastBlockMatters | common/SpookyV2.h:171-204 | behind equal states, different last blocks end in different states |
| SpookyMix.ShortPieceMatters | common/SpookyV2.cpp:62-145 | short messages of one length that differ in one piece of sixteen bytes, or in the last 0 to 15, end in different states |
| SpookyMix.ShortLengthMatters | common/SpookyV2.cpp:95-142 | so does a short message from the same one with zeros behind it in its last piece |
| SpookyMix.ShortSeedsMatter | common/SpookyV2.cpp:62-145 | and one message under different seeds |
| SpookyHash.HashIsOfState | common/SpookyV2.cpp:147-206 | the two words answered are the first two of the state the message ends in |
| SpookyHash.LongRestMatters | common/SpookyV2.cpp:196-205 | long messages with the same whole blocks end in one state only if they are equal, the number of bytes behind the blocks included |
| SpookyHash.LongWordMatters | common/SpookyV2.cpp:170-205 | long messages that differ in one aligned word end in different states |
| SpookyHash.LongSeedsMatter | common/SpookyV2.cpp:170-205 | so does one long message under different seeds |
| SpookyHash.LinePixel | common/SpookyV2.cpp:380-388 | each byte hashed of a line is the pixmap's at the rectangle's place |
| SpookyHash.SeedsStayApart | common/SpookyV2.cpp:170-194 | different seeds leave different states after all whole blocks of any message |
| EditDistance.DiagonalIsOptimal | common/JsonUtil.hpp:61-64 | taking the diagonal on a match is never worse than the three-way minimum |
| EditDistance.NoFewerEdits | common/JsonUtil.hpp:44-74 | no list of insertions, deletions and substitutions that turns one string into the other is shorter |
| EditDistance.BestEdits | common/JsonUtil.hpp:44-74 | a list of that length exists |
| EditDistance.CellRule | common/JsonUtil.hpp:53-69 | the rule by which the table is filled gives the distance of the prefixes |
| EditDistance.GetLevenshteinDist | common/JsonUtil.hpp:44-74 | the result is the least number of edits |
| FakeSocketRuns.StepKeepsInv | net/FakeSocket.cpp:107-698 | every critical section used as documented keeps the facts about numbers, roles, connections and buffers |
| FakeSocketRuns.InOrderExactlyOnce | net/FakeSocket.cpp:513-620 | in every interleaving the records written towards an open end are those read there followed by its buffer, and a non-empty buffer is readable |
| FakeSocketResults.ResultTells | net/FakeSocket.cpp:107-698 | in every reachable state every call returns what the history says: which ends were opened, shut down and closed, who listens and who waits, and which record is the next not taken |
| FakeSocketResults.PollTells | net/FakeSocket.cpp:218-270 | a poll reports a number that is not open as invalid, input if and only if there is something to read or somebody to accept, output if and only if the other end is open and not shut down, a hangup if and only if that was shut down |
| FakeSocketResults.InputMeansRead | net/FakeSocket.cpp:244-251 | for a socket that does not listen, input is reported if and only if a read with enough room is not told to try again |
| FakeSocketResults.InputMeansAccept | net/FakeSocket.cpp:244-251 | for one that listens, if and only if somebody waits to be accepted |
| FakeSocketResults.ShutdownUnseen | net/FakeSocket.cpp:513-660 | after the other end was shut down, exactly when a read is told to try again although a poll reports a hangup |
| FakeSocketResults.WhoNotifies | net/FakeSocket.cpp:362-698 | waiting threads are notified by a connect that begins to wait and by an accept, write, shutdown or close that succeeds, and by nothing else |
| FakeSocketRuns.AcceptAssertions | net/FakeSocket.cpp:439-446 | the assertions in accept hold in every reachable state |
| FakeSocketRuns.ConnectAssertion | net/FakeSocket.cpp:399-402 | so does the one behind the wait in connect |
| FakeSocketRuns.NumberAssertions | net/FakeSocket.cpp:700-729 | open ends carry their own numbers and an open odd end excludes listening |
| FakeSocketRuns.NoLostWakeUp | net/FakeSocket.cpp:218-270 | a step that makes the poll of a known number, the wait in connect or the wait in accept succeed notifies, for numbers not allocated yet as well |
| FakeSocketRuns.AcceptedIsReady | net/FakeSocket.cpp:399-400 | a connect that has been accepted gets out of its wait if and only if the accepted end has not been closed |
| FakeSocketRuns.ConnectReturnsUnlessClosed | net/FakeSocket.cpp:396-406 | a connect that is waiting, accepted or not, returns in some continuation if and only if no accepted end of it has been closed |
| FakeSocketRuns.ClosedBeforeConnectReturns | net/FakeSocket.cpp:399-400 | once that end is closed, in every continuation connect goes on waiting |
| FakeSocketRuns.ConnectCanBeLeftWaiting | net/FakeSocket.cpp:662-698 | such a state is reachable |
| FakeSockets.FakeSockets.Allocate | net/FakeSocket.cpp:124-139 | a new pair with its even end open |
| FakeSockets.FakeSockets.PipeSecond | net/FakeSocket.cpp:159-164 | the odd end is opened in a second critical section |
| FakeSockets.FakeSockets.Listen | net/FakeSocket.cpp:327-360 | table, result and notification of listen, error cases included |
| FakeSockets.FakeSockets.Connect | net/FakeSocket.cpp:362-397 | the same for connect up to its wait |
| FakeSockets.FakeSockets.Accept | net/FakeSocket.cpp:409-459 | the same for accept |
| FakeSockets.FakeSockets.Read | net/FakeSocket.cpp:513-577 | the same for read |
| FakeSockets.FakeSockets.Write | net/FakeSocket.cpp:579-620 | the same for write |
| FakeSockets.FakeSockets.Shutdown | net/FakeSocket.cpp:622-660 | the same for shutdown |
| FakeSockets.FakeSockets.Close | net/FakeSocket.cpp:662-698 | the same for close |
| FakeSockets.FakeSockets.CheckForPoll | net/FakeSocket.cpp:218-270 | the loop fills in every socket's events and tells whether there was any |
| RenderPool.StepKeepsInv | common/RenderTiles.hpp:70-127 | every step keeps count of queued, running and finished jobs and of what is in the output |
| RenderPool.EachJobRunsOnce | common/RenderTiles.hpp:70-127 | in every interleaving each pushed job is queued, in flight or finished, exactly once |
| RenderPool.JobsStartInOrder | common/RenderTiles.hpp:77-84 | in every interleaving the jobs are started in the order in which they were pushed |
| RenderPool.RunReturnsWhenAllDone | common/RenderTiles.hpp:98-116 | a run that uses the workers returns only with no job queued or in flight, and every encoded tile is in the output once |
| RenderPool.CutGivesOwnBytes | common/RenderTiles.hpp:332-335 | what the cumulative image sizes cut out of the joined results is each job's own result |
| RenderPool.TilesKeepTheirBytes | common/RenderTiles.hpp:295-336 | whatever the completion order, each tile noted is cut out as its own bytes |
| RenderPool.SendEach | common/RenderTiles.hpp:369-380 | the loop that sends tiles one by one sends each its own bytes |
| RenderPool.ThreadPool.PushWork | common/RenderTiles.hpp:70-75 | a job goes to the back of the queue |
| RenderPool.ThreadPool.TakeOne | common/RenderTiles.hpp:77-84 | the front job is taken and counted as working, as in the state machine |
| RenderPool.ThreadPool.FinishOne | common/RenderTiles.hpp:92-95 | completion is notified exactly when a run waiting for the workers may return |
| RenderPool.ThreadPool.UseThreads | common/RenderTiles.hpp:103-106 | the decision the state machine's run starts with |
| RenderRuns.CompletionNotifies | common/RenderTiles.hpp:91-112 | for a run that uses the workers, the steps after which it may return, and could not before, are those that notify it while the running thread has no job |
| RenderRuns.RunCanReturn | common/RenderTiles.hpp:98-116 | from every reachable state inside run, some continuation returns |
| RenderRuns.RunMayReturnEarly | common/RenderTiles.hpp:103-112 | from every reachable state in which run is called, it may return with a job in flight if and only if it does not use the workers and one of them has a job or could take one |
| RenderRuns.SomeJobMayBeLeftBehind | common/RenderTiles.hpp:70-116 | where jobs are pushed to an idle pool and run is called, some interleaving returns with a job in flight if and only if there is a worker and a job |
| RenderGeometry.Rectangle.Extend | common/Rectangle.hpp:42-52 | the smallest rectangle around both, each side a side of one of them |
| RenderGeometry.TileInside | common/RenderTiles.hpp:218-271 | a tile covered by the area lies inside the pixmap |
| RenderGeometry.Apart | common/RenderTiles.hpp:267-271 | different tiles on one grid get disjoint pixel rectangles |
| RenderGeometry.StepsAgree | common/RenderTiles.hpp:267-271 | tiles of one grid are as many whole tiles apart in the pixmap, and in the same direction, as in the document |
| RenderGeometry.RenderArea | common/RenderTiles.hpp:194-214 | the smallest area that covers every tile |
| RenderGeometry.Arrange | common/RenderTiles.hpp:194-271 | for every non-empty set of tiles, every tile is inside the pixmap, as kit/Delta.hpp:116-117 asserts, tiles touch all four sides of it, and tiles on one grid lie in it as they do in the document, so that different ones do not overlap |
| StateReplay.ReplayCatchesUp | kit/ChildSession.cpp:180-220 | whatever the order in which the maps are listed, the replay sets every remembered register, appends the remembered sequence and asks for a refresh if one was due |
| StateReplay.ReplayMatchesLive | kit/ChildSession.cpp:158-225 | over any number of inactive spells an active client has the registers live delivery would have left; its log is the same if and only if no logged event passed through an inactive session |
| StateReplay.LoggedShownTwice | kit/ChildSession.cpp:2661-2674 | any logged event that passes through is shown twice |
| StateReplay.CommentPassesThrough | kit/ChildSession.cpp:2666-2673 | a comment naming .uno:ModifiedStatus is such an event |
| StateReplay.WhatPasses | kit/ChildSession.cpp:2661-2674 | a callback is never held back if and only if it mentions .uno:ModifiedStatus somewhere, or is a command result that mentions .uno:Save |
| StateReplay.WhatIsRemembered | kit/ChildSession.cpp:2519-2572 | every callback is remembered except command results, state changes without '=' and other kinds |
| StateReplay.WhatIsDisplaced | kit/ChildSession.cpp:2519-2572 | a later callback displaces those of its kind, about the same view or state where it is about one, and none that is logged |
| StateReplay.NameEndsAtEquals | kit/ChildSession.cpp:2557-2563 | the name of a state is what stands before its first '=' |
| StateReplay.WholePartReads | kit/ChildSession.cpp:182-187 | the refresh that is replayed reads as x 0, y 0, a billion wide and high, and the current part |
| StateReplay.StateRecorder.RecordViewEvent | kit/ChildSession.hpp:167-170 | only the entry of that view and type changes |
| StateReplay.StateRecorder.Clear | kit/ChildSession.hpp:184-191 | nothing stays recorded |
| StateReplay.ChildSession.RememberEventsForInactiveUser | kit/ChildSession.cpp:2519-2572 | which callbacks are recorded, and where |
| StateReplay.ChildSession.LoKitCallback | kit/ChildSession.cpp:2641-2674 | what is recorded and what reaches the client, active or not |
| StateReplay.ChildSession.UserActive | kit/ChildSession.cpp:158-225 | the views are told to all clients, the current part is sent for documents with parts, then comes a replay of everything recorded, each entry once, and the recorder is empty |
| StateReplay.ChildSession.ViewEvents | kit/ChildSession.cpp:189-199 | the nested loops list every view's events once |
| PixmapCache.TouchKeepsMostRecent | kit/ChildSession.cpp:1940-1960 | one paint keeps the list the most recently used distinct hashes, newest first |
| PixmapCache.MostRecentIsUnique | kit/ChildSession.cpp:1926-1964 | only one list is that |
| PixmapCache.CacheIsMostRecent | kit/ChildSession.cpp:1924-1980 | after any history the list is the 100 most recently used distinct hashes, newest first |
| PixmapCache.ChildSession.RenderWindow | kit/ChildSession.cpp:1924-1964 | the update of the vector in place, and when a PNG is needed |
| PixmapCache.TileLayer.OnDialogPaint | browser/src/layer/tile/CanvasTileLayer.js:3432-3491 | the client's cache after a message, and the image shown |
| PixmapCache.StepKeepsInStep | kit/ChildSession.cpp:1936-1991 | both caches stay in step if and only if no image had to be encoded in vain |
| PixmapCache.EveryPaintIsShown | kit/ChildSession.cpp:1974-1996 | where equal hashes mean equal images, every paint shows its own image, nopng answers included, if and only if no encoding failed |
| PixmapCache.FailureIsMissed | kit/ChildSession.cpp:1992-1996 | after a failed encoding the same paint is answered with nopng and the client has no image |
| Clipboard.LengthOfHex | common/Util.hpp:1057-1062 | the hexadecimal length printed is the length read |
| Clipboard.HexIsPlain | common/Util.hpp:1057-1062 | it is printed in small letters without leading zeros |
| Clipboard.DigitValueMeans | common/Clipboard.hpp:39 | digits are the sixteen small or capital ones |
| Clipboard.LengthIsLenient | common/Clipboard.hpp:39 | blanks and a sign before the length and anything behind its digits are accepted, and a negative length is read as a huge one |
| Clipboard.GetClipboard | kit/ChildSession.cpp:1195-1212 | the writer's loop prints a first line and then every entry |
| Clipboard.ClipboardRoundTrip | common/Clipboard.hpp:31-53 | after its first line a printed clipboard is read back exactly, if and only if every type is a non-empty line |
| Clipboard.ShortContentFails | common/Clipboard.hpp:40-44 | a content shorter than announced is an error |
| Clipboard.ReadSkipsEmpty | common/Clipboard.hpp:33-37 | two lines of which one is empty are skipped and reading goes on |
| Clipboard.ReadIsPrintable | common/Clipboard.hpp:36-51 | whatever the bytes, the types read are non-empty lines |
| Clipboard.ClipboardData.Read | common/Clipboard.hpp:31-53 | the loop ends on every input, appends what the reader makes of the stream, and fails exactly where it throws |

## Left out

- Text forms of queue messages: the queue holds parsed messages, and parsing is taken to undo serialising. TileCombined.create and its checks, canceltiles and remove_if are not modelled.
- TileQueue.TileQueue.CombineRemoveText: the sum of two ints is taken to wrap around where the language leaves it undefined; QueueMeaning.PutKeepsMeaning sums in the same way.
- TileQueue.TileQueue.MergeInvalidations: requires that the rectangles of one view, part and mode lie in one square of INT_MAX by INT_MAX, wherever it is; beyond that the source's arithmetic overflows, which is undefined.
- TileQueue.TileQueue.PutOne, TileQueue.TileQueue.PutAny: require the same of a new rectangle.
- SpookyHash.Stream.Update: the length added up in size_t is unbounded here; unaligned reads and the word views of the buffer are bytes.
- SpookyMix: the mixing functions are functions of the state instead of in-place updates of twelve references; statistical properties of them, such as diffusion, are not modelled. The rotation distances, the number of final rounds and the initial constant are the source's, but any others would keep messages apart as well. That the two words answered differ, and not only the states they are taken from, is not true of all messages.
- Compression, PNG, JSON, LibreOfficeKit, watermarks: foreign code; compression is taken to be lossless and never to fail, a view event carries the viewId its JSON holds.
- A keyframe is the image's bytes, sent for the tile's own width and height, which the client's canvas then has; the browser's canvas has one size for all tiles (browser/src/layer/tile/CanvasTileLayer.js:6796-6798) and reads as many bytes as that needs. The markers before the compressed data are not modelled. Truncated deltas, which the encoder never sends, end the model's decoder at once.
- DeltaRuns.ClientFollows: assumes, as the code asserts, that no two threads work on one tile at once and that bitmaps compared are at most 256 by 256.
- DeltaCache.DeltaGenerator.CreateDelta: calls its two critical sections one after the other; what may happen in between is the subject of DeltaRuns. Sharing of the row arrays between bitmaps is not modelled, and an uninitialised limit is an arbitrary number.
- EditDistance.GetLevenshteinDist: the int width of the table and its size on the stack are not modelled.
- Condition variables: a wait is a step that is enabled when its condition holds; poll timeouts, spurious wake-ups that change nothing and the references kept across waits (net/FakeSocket.cpp:379-400) are not modelled. fakeSocketPeer, fakeSocketAvailableDataLength and the state dump change nothing and are left out.
- FakeSocketRuns.InOrderExactlyOnce: documented usage is assumed (net/FakeSocket.cpp:31-40): a socket connects once or listens, and is not closed while it connects.
- RenderPool.RunReturnsWhenAllDone: the assertions on the counter in pushWork and run (common/RenderTiles.hpp:73, common/RenderTiles.hpp:101, common/RenderTiles.hpp:114) are not claimed, a late wake-up can break them. Exceptions in jobs, shutdown and the combined message are not modelled.
- RenderGeometry.Arrange: coordinates and pixel sizes are unbounded; tile sizes are positive.
- StateReplay.ReplayMatchesLive: is about what the session remembers. State changes without '=' and the kinds not listed are not remembered; the replayed invalidation is always the whole current part, so of an invalidation only that there was one is compared. The wording of the view information that activation has the document manager send to every client (kit/Kit.cpp:1295-1368) is a parameter. The effects of a callback on the server, and closing sessions are not modelled.
- PixmapCache: the hash is taken as given; adding the view id to it is not modelled.
- Clipboard: allocation failure for a huge announced length is the same error as a short stream. An empty clipboard's error reply is not modelled, nor is the shared clipboard cache.
- Jails, process handling, sockets of the operating system, configuration, file copying, the unit test harness and the user interface shells: input, output and plumbing.
