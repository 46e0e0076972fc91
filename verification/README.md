# Media pipeline model

A Dafny model of three stateful parts of the FFmpeg tree under `contrib/FFmpeg`, with proofs.

**The 4XM video decoder** (`libavcodec/4xm.c`).

- `HuffmanForest`, `HuffmanOptimality`, `HuffmanCodes`, `HuffmanTables`: the code table that I-frames
  transmit. Frequencies are read, merged in place over the `frequency`/`up`/`flag` arrays, and code words
  are read off the parent links. The merge loop is proved against a forest of trees. From that follow the
  length bound 22 (so the overflow message is dead code), completeness, optimality among *all* prefix
  codes, and the exact range of active symbols (2 to 256) for which the code is usable at all.
- `BlockTypes`, `Pixels`, `PBlock`: P-frames. Block-type prefix codes, recursive splitting of 8x8 blocks,
  packed two-pixel copies, motion references and their range check, and the whole-frame loop.
- `PSketch`: what a P-frame says, apart from its decoder: sketches of blocks, the three streams that spell
  them, and the pixels they stand for. Decoding a block or a frame is reading a spelling and showing it.
- `CFrames`: frames that arrive in chunks, interleaved by id, in a table of 100 slots.

**The ffmpeg output path** (`fftools/ffmpeg.c`).

- `MuxQueue`: packets wait until the file header is written; each packet handed to the muxer has its
  timestamps repaired.
- `BsfChain`: the depth-first driver of a chain of bitstream filters, against the plain composition of the
  filters.
- `VideoSync`: how often a picture is encoded at constant frame rate, and the duplicate and drop counters.

**The ffplay queues and clocks** (`fftools/ffplay.c`).

- `PacketQueue`: the linked packet queue with serial numbers, against a sequence.
- `DecoderSerial`, `DecoderRuns`: reader, control and decoder threads of one stream as interleaved atomic
  steps, and the laws over all their runs.
- `FrameRing`: the ring of decoded frames, its writer and its reader as interleaved atomic steps.
- `Clocks`: the piecewise-linear clocks in exact reals.

`Sums` holds finite sums and powers of two, `Options` the optional value. Objects that the source updates in place are classes whose
methods are tied to functions on values; laws over whole runs are lemmas about those functions. The thread
interleavings of `DecoderSerial` are a step relation on values, because no single method of the source is
atomic there; `FrameRing` has both the step relation and a class with one method per atomic step.

## Findings

Properties that do not hold of the code as it stands, with the exact condition under which they do:

- With all 257 symbols active the merge loop runs out of node indices and leaves two roots; with one active
  symbol the only word is empty. The code is usable if and only if 2 to 256 symbols are active
  (`HuffmanTables.UsableIff`, `HuffmanTables.AllSymbolsActive`).
- The packed two-pixel addition equals the per-pixel one if and only if the low pixel does not overflow
  (`Pixels.PackedIsPerPixelIff`, `Pixels.CarryHappens`).
- A call puts the duplicate and drop counters out of step if and only if it skips an over-long
  duplication while a drop is pending or on a flush, or is cut short: recording time ends among the frames
  it decided on, or a flush has no last picture to repeat, after the duplicates have been counted
  (`VideoSync.StepExactIff`, `VideoSync.RunExactIff`; runs: `VideoSync.MiscountHappens`,
  `VideoSync.LateHappens`, `VideoSync.SecondFlushHappens`). Without over-long duplications, the end of
  recording time and a repeated flush they are always right (`VideoSync.Conservation`).
- A first picture that is encoded only in place of a missing last one is reported as dropped although it was
  shown; otherwise the reported drops are the pictures never shown (`VideoSync.DropsRightIff`,
  `VideoSync.CountersMeanPictures`; a run: `VideoSync.MislabelHappens`).
- A packet without a decoding time resets the monotonicity check of the muxer. The written decoding times
  keep rising if and only if the next packet with one after such a packet, rescaled and guessed, is itself
  not below the last one written (`MuxQueue.RepairKeepsOrderIff`, `MuxQueue.WrittenRisesIff`; a run:
  `MuxQueue.UndefinedDtsResets`). When every offered packet has a decoding time they always rise
  (`MuxQueue.WholeRun`).
- On resuming, the video clock continues from where it stood only if pausing the input is unsupported (or no
  time has passed); on pausing it freezes at its last set value, not at its reading
  (`Clocks.VideoClockResume`, `Clocks.VideoClockPause`; both at work: `Clocks.VideoClockJumps`).
- Chunks with frame id 0 join earlier id-0 data if and only if no slot before that data has id 0, as an
  emptied one does (`CFrames.ZeroIdJoinsIff`; a run from the empty table: `CFrames.ZeroIdFallsApart`).
- A chunk has a slot to go to if and only if fewer than 100 other ids are waiting for the rest of their data;
  otherwise the source goes on with slot index -1, and the model stops with `NoSlot` (`CFrames.RoomIff`,
  `CFrames.NoRoomHappens`).

## Model

| member | source | states |
|---|---|---|
| HuffmanTables.ReadHuffmanTables | contrib/FFmpeg/libavcodec/4xm.c:616-712 | for every input buffer: success exactly when the ranges parse; no code length exceeds 22 and the overflow message never fires; unused symbols get length 0; the words are a usable prefix code iff 2 to 256 symbols are active, and then Kraft sum is 1, every stream starts with a word, and no prefix code is cheaper |
| HuffmanTables.ReadFrequencies | contrib/FFmpeg/libavcodec/4xm.c:632-658 | in-place range reading: later ranges overwrite earlier ones, error when bytes run out, end mark weight 1, position rounded up to a multiple of four |
| HuffmanTables.EveryTableOccurs | contrib/FFmpeg/libavcodec/4xm.c:632-650 | every table of 256 bytes has a transmission that reads back to it |
| HuffmanTables.RangesRoundTrip | contrib/FFmpeg/libavcodec/4xm.c:632-658 | any list of ranges, spelt as start, end and bytes of each and a final zero, is read back: each symbol gets the byte of the last range that covers it, or 0, and the position is the next multiple of four |
| HuffmanTables.AcceptedIff | contrib/FFmpeg/libavcodec/4xm.c:632-658 | the reader succeeds exactly on such spellings that leave room for the alignment |
| HuffmanTables.ScanSmallest | contrib/FFmpeg/libavcodec/4xm.c:661-680 | one pass finds the two least live nodes in (frequency, index) order, or reports that fewer than two are live |
| HuffmanTables.Merge | contrib/FFmpeg/libavcodec/4xm.c:660-688 | after the loop the parent links and branch flags describe exactly the trees of the greedy merge |
| HuffmanTables.ReadWord | contrib/FFmpeg/libavcodec/4xm.c:690-704 | the accumulated integer is the root-first bit string of the climb, the length its length, the overflow message is given iff the length exceeds 31 |
| HuffmanForest.FibonacciWeight | contrib/FFmpeg/libavcodec/4xm.c:682-687 | a tree of height k built by fair merges weighs at least Fibonacci number k+2 |
| HuffmanForest.HeightBound | contrib/FFmpeg/libavcodec/4xm.c:693-700 | no reachable live tree is higher than 22, and every live frequency stays below the 65536 start value |
| HuffmanForest.RunCounts | contrib/FFmpeg/libavcodec/4xm.c:660-688 | over the whole loop total live weight is conserved and each new node index costs one live node |
| HuffmanForest.RunInv | contrib/FFmpeg/libavcodec/4xm.c:660-688 | the loop keeps: disjoint trees owning every active symbol, node weights equal to leaf sums, and some bound between all children of roots and all roots |
| HuffmanOptimality.RunOptimal | contrib/FFmpeg/libavcodec/4xm.c:660-688 | merging the two smallest is optimal among all code lengths satisfying the Kraft inequality |
| HuffmanOptimality.KraftInequality | contrib/FFmpeg/libavcodec/4xm.c:706-709 | every prefix-free code satisfies the Kraft inequality |
| HuffmanOptimality.PrefixCodeOptimal | contrib/FFmpeg/libavcodec/4xm.c:660-704 | the built forest costs at most as much as any prefix code for the same table |
| HuffmanCodes.SymbolWalk | contrib/FFmpeg/libavcodec/4xm.c:693-695 | climbing the links from a symbol yields its path in the tree that owns it |
| HuffmanCodes.WalkIsFlags | contrib/FFmpeg/libavcodec/4xm.c:693-695 | the word has a bit for each ancestor: counted from its end, the flags of the symbol, its parent, and so on |
| HuffmanCodes.StoredBits | contrib/FFmpeg/libavcodec/4xm.c:693-704 | bit k of the stored integer is the flag of the symbol's k-th ancestor |
| HuffmanCodes.OneTreeKraft | contrib/FFmpeg/libavcodec/4xm.c:690-704 | with one root left the Kraft sum of the words is exactly 1 |
| HuffmanCodes.OneTreeCost | contrib/FFmpeg/libavcodec/4xm.c:690-704 | the sum of frequency times word length is the total depth cost of the forest |
| HuffmanCodes.TwoTreesUnusable | contrib/FFmpeg/libavcodec/4xm.c:660-704 | with two roots left some word is a prefix of another |
| HuffmanCodes.RoundTrip | contrib/FFmpeg/libavcodec/4xm.c:706-709 | looking words up from the front of an encoded message gives the message back |
| HuffmanCodes.BitsRoundTrip | contrib/FFmpeg/libavcodec/4xm.c:702-709 | storing a word as (bits, length) loses nothing |
| HuffmanTables.RootsLeft | contrib/FFmpeg/libavcodec/4xm.c:660-680 | the loop leaves one root, or two when all 257 symbols are active |
| HuffmanTables.UsableIff | contrib/FFmpeg/libavcodec/4xm.c:660-704 | prefix-free non-empty words exactly for 2 to 256 active symbols |
| HuffmanTables.AllSymbolsActive | contrib/FFmpeg/libavcodec/4xm.c:642-650 | the table with all 257 symbols active is a legal input |
| HuffmanTables.HuffmanCode | contrib/FFmpeg/libavcodec/4xm.c:660-704 | for 2 to 256 active symbols: Kraft sum 1, every long enough stream starts with a word, no prefix code is cheaper |
| BlockTypes.TableComplete | contrib/FFmpeg/libavcodec/4xm.c:46-68 | in each of the eight tables every five-bit window starts with some block type |
| BlockTypes.TableUnambiguous | contrib/FFmpeg/libavcodec/4xm.c:46-68 | and with only one |
| BlockTypes.Lookup | contrib/FFmpeg/libavcodec/4xm.c:357-359 | the looked-up type is one of 0..6, fires on the window, and consumes its own length |
| BlockTypes.LookupIff | contrib/FFmpeg/libavcodec/4xm.c:357-359 | a type is looked up exactly where its code word stands, and its word is consumed |
| BlockTypes.NewWordsAreUnary | contrib/FFmpeg/libavcodec/4xm.c:46-56 | the words of the newer tables are the unary ones in the order of the types they offer |
| BlockTypes.OldWordsAreCanonical | contrib/FFmpeg/libavcodec/4xm.c:57-68 | the words of the older tables have two or three bits and are numbered in one fixed order of the types |
| BlockTypes.OmittedTypes | contrib/FFmpeg/libavcodec/4xm.c:46-75 | the table chosen by block size never yields a split of a one-pixel side, and literal pairs only for two-pixel blocks |
| Pixels.PackedLanes | contrib/FFmpeg/libavcodec/4xm.c:287-291 | the low lane of the 32-bit multiply-add is the pixel update, the high lane is off by exactly the carry |
| Pixels.PackedIsPerPixelIff | contrib/FFmpeg/libavcodec/4xm.c:287-340 | packed equals per-pixel iff the low pixel does not overflow, which is always so for pure copies and fills |
| Pixels.CarryHappens | contrib/FFmpeg/libavcodec/4xm.c:287-291 | two pixels whose packed update is not the per-pixel one |
| Pixels.LaneMeaning | contrib/FFmpeg/libavcodec/4xm.c:301-337 | for every width and column: own update plus the carry of the left partner |
| Pixels.MovedMeaning | contrib/FFmpeg/libavcodec/4xm.c:294-340 | a copied pixel is the one at the same offset from the source corner, plus dc and the carry; a fill is dc everywhere |
| Pixels.McDc | contrib/FFmpeg/libavcodec/4xm.c:294-340 | in-place copy of a block: each pixel inside gets its lane value from the right source row, no other pixel changes, all accesses stay inside both frames |
| PBlock.InitMv | contrib/FFmpeg/libavcodec/4xm.c:265-275 | with doubled width as line size the halving is exact: displacement (dx, dy) becomes dx + dy * width |
| PBlock.ParseWellFormed | contrib/FFmpeg/libavcodec/4xm.c:342-427 | splitting never reaches one pixel, literal pairs are two pixels, every accepted source window lies in the previous frame |
| PBlock.LeavesPartition | contrib/FFmpeg/libavcodec/4xm.c:364-378 | the leaves of a block cover each of its pixels exactly once and nothing else |
| PBlock.FramePartition | contrib/FFmpeg/libavcodec/4xm.c:482-488 | every pixel of the frame lies in exactly one leaf of exactly one block |
| PBlock.UnshiftedFits | contrib/FFmpeg/libavcodec/4xm.c:361-362 | an unshifted source is always between start and end |
| PBlock.Decoder.FetchSource | contrib/FFmpeg/libavcodec/4xm.c:393-417 | stream reads of types 0, 3, 4 and 5 with their error exits: displacement of the byte read for types 0 and 4, offset of the word read for 4 and 5, scale 0 only for 5, readers moved by what was read; the assertion of type 5 never fires |
| PBlock.Decoder.DecodePBlock | contrib/FFmpeg/libavcodec/4xm.c:342-427 | succeeds exactly when the streams parse, moves the readers accordingly, gives every pixel its decoded value, and never changes a pixel outside the block even on failure |
| PBlock.Decoder.DecodePFrame | contrib/FFmpeg/libavcodec/4xm.c:482-490 | the raster loop decodes the parsed blocks of the whole frame |
| PSketch.ParsedIsSpelt | contrib/FFmpeg/libavcodec/4xm.c:342-427 | every block that is accepted was spelt by the three streams from the readers on, and all of its spelling and no more is read |
| PSketch.SpellingParses | contrib/FFmpeg/libavcodec/4xm.c:342-427 | a sketch that the streams spell is accepted exactly when its displaced sources lie in the previous frame |
| PSketch.SketchIsUnique | contrib/FFmpeg/libavcodec/4xm.c:342-427 | the streams spell only one sketch |
| PSketch.BlockShowsSketch | contrib/FFmpeg/libavcodec/4xm.c:342-427 | after a block is decoded the frame shows its sketch: upper before lower and left before right half, moved pixels from the displaced position, literal pixels in order, fills, and nothing outside |
| PSketch.FrameShowsSketches | contrib/FFmpeg/libavcodec/4xm.c:482-490 | a decoded frame was spelt block after block in reading order, and every pixel is the one its own 8x8 block shows |
| PSketch.FrameStaysLanes | contrib/FFmpeg/libavcodec/4xm.c:482-490 | pixels stay 16-bit values, so a decoded frame can be the previous frame of the next |
| CFrames.Decoder.FindSlot | contrib/FFmpeg/libavcodec/4xm.c:880-891 | the first slot with the id, else the last empty slot, and -1 exactly when there is neither |
| CFrames.Decoder.ReceiveChunk | contrib/FFmpeg/libavcodec/4xm.c:862-921 | for non-zero ids a chunk completes exactly the concatenation of that id's payloads since its last completion; it has no slot exactly when 100 other ids are unfinished; error exits as in the source |
| CFrames.RoomIff | contrib/FFmpeg/libavcodec/4xm.c:880-890 | a table that holds what its chunks have brought has a slot for an id iff fewer than 100 other ids are unfinished |
| CFrames.DeliverMeaning | contrib/FFmpeg/libavcodec/4xm.c:880-921 | a chunk extends, completes or leaves its own id and disturbs no other; used ids stay distinct |
| CFrames.ZeroIdJoinsIff | contrib/FFmpeg/libavcodec/4xm.c:880-885 | id-0 chunks join earlier id-0 data iff no earlier slot has id 0 |
| CFrames.ZeroIdDelivers | contrib/FFmpeg/libavcodec/4xm.c:880-921 | what an id-0 chunk extends, completes or leaves behind |
| CFrames.ZeroIdFallsApart | contrib/FFmpeg/libavcodec/4xm.c:880-885 | a run of chunks from the empty table after which the second half of an id-0 frame does not join the first |
| CFrames.NoRoomHappens | contrib/FFmpeg/libavcodec/4xm.c:887-890 | a run of 100 chunks after which a new id has no slot |
| MuxQueue.GuessIsMedian | contrib/FFmpeg/fftools/ffmpeg.c:765-775 | the guessed time is the median of presentation time, decoding time and successor of the last decoding time |
| MuxQueue.RepairedIsLegal | contrib/FFmpeg/fftools/ffmpeg.c:764-799 | a written packet has decoding time not after presentation time, is defined where the input was, and is bumped to the least legal value |
| MuxQueue.RepairMeaning | contrib/FFmpeg/fftools/ffmpeg.c:750-800 | from the rescaled times of the offered packet: the written decoding time is the least legal one from the wanted one on, and the presentation time moves only to stay with it |
| MuxQueue.InOrderUntouched | contrib/FFmpeg/fftools/ffmpeg.c:764-799 | a packet in order keeps both times |
| MuxQueue.ExitIff | contrib/FFmpeg/fftools/ffmpeg.c:779-790 | the program exits exactly when told to and the decoding time would have to be raised |
| MuxQueue.WriteKeeps | contrib/FFmpeg/fftools/ffmpeg.c:704-734 | every write keeps conservation, order and queue bounds; before the header the program exits exactly when the queue holds 8 packets or the allowed maximum, whichever is more |
| MuxQueue.FlushKeeps | contrib/FFmpeg/fftools/ffmpeg.c:3001-3013 | writing the header moves the whole queue to the muxer in order and keeps every invariant |
| MuxQueue.TimeBase | contrib/FFmpeg/fftools/ffmpeg.c:3001-3013 | over any run, a stream's times are rescaled throughout exactly if it had accepted a packet before the header |
| MuxQueue.RepairKeepsOrderIff | contrib/FFmpeg/fftools/ffmpeg.c:776-800 | written decoding times that rise still rise after one more packet iff the last one written was defined, or this one is not, or it is not below the last defined one |
| MuxQueue.WrittenRisesIff | contrib/FFmpeg/fftools/ffmpeg.c:776-800 | the same for the whole output: it rises iff every packet met that condition |
| MuxQueue.WholeRun | contrib/FFmpeg/fftools/ffmpeg.c:690-823 | over any run with any number of streams that does not exit: the muxer got the accepted packets in order, once each, with the times that the offered ones call for, the rest is queued; nothing before the header; accepted is the prefix of the offered packets within the frame limit and is counted once; decoding times rise iff every packet stayed in order, and throughout when all offered ones are defined and timestamps are kept |
| MuxQueue.UndefinedDtsResets | contrib/FFmpeg/fftools/ffmpeg.c:776-799 | a run of header and three packets in which a packet without decoding time lets the next go back |
| MuxQueue.OutputStream.WritePacket | contrib/FFmpeg/fftools/ffmpeg.c:690-823 | the method's new state is the write, queue or mux step that the invariants are about |
| MuxQueue.OutputStream.FlushQueue | contrib/FFmpeg/fftools/ffmpeg.c:3004-3012 | the flush loop drains this stream's queue front first |
| MuxQueue.OutputFile.CheckInitOutputFile | contrib/FFmpeg/fftools/ffmpeg.c:2972-3016 | nothing until all streams are initialised, then header and flush of all streams in order |
| BsfChain.FlowAppend | contrib/FFmpeg/fftools/ffmpeg.c:847-896 | feeding inputs in two parts is the same as feeding them at once |
| BsfChain.OneEofEach | contrib/FFmpeg/fftools/ffmpeg.c:852-885 | every filter gets exactly one end mark, last, when the input ends, and none otherwise |
| BsfChain.OwedSend | contrib/FFmpeg/fftools/ffmpeg.c:862-880 | passing one packet down the chain keeps what the loop still owes and shortens the work left |
| BsfChain.OutputStream.OutputPacket | contrib/FFmpeg/fftools/ffmpeg.c:847-896 | the index loop terminates, leaves every filter drained, and writes exactly the composition of the filters on the input |
| BsfChain.RunIsComposition | contrib/FFmpeg/fftools/ffmpeg.c:847-896 | over a whole run of calls ending in an end mark, the output is the composition of the filters on the whole input |
| VideoSync.LimitTakesFirst | contrib/FFmpeg/fftools/ffmpeg.c:1169-1170 | with a frame limit a call encodes the first frames of what it would encode without |
| VideoSync.LimitedInRange | contrib/FFmpeg/fftools/ffmpeg.c:1169-1170 | 0 <= nb0_frames <= nb_frames within the frame limit, and the duplicate count is never negative |
| VideoSync.EncodeEffect | contrib/FFmpeg/fftools/ffmpeg.c:1199-1339 | consecutive timestamps; the first nb0_frames repeat the previous picture; what is not encoded is cut |
| VideoSync.StepBalances | contrib/FFmpeg/fftools/ffmpeg.c:1169-1196 | no call changes encoded + cut - inputs - dup + drop + pending - miscounts |
| VideoSync.StepGuards | contrib/FFmpeg/fftools/ffmpeg.c:1177-1218 | frames are cut iff the call is not skipped, wants frames, and lacks a last picture on a flush or leaves recording time; a miscount needs the over-long exit |
| VideoSync.StepExactIff | contrib/FFmpeg/fftools/ffmpeg.c:1177-1218 | a call leaves encoded - inputs - dup + drop + pending unchanged iff it neither takes the over-long exit on a flush or with a drop pending nor is cut short |
| VideoSync.RunExactIff | contrib/FFmpeg/fftools/ffmpeg.c:1054-1349 | the counters are right after every call of a run iff no call of it meets one of these guards |
| VideoSync.Conservation | contrib/FFmpeg/fftools/ffmpeg.c:1757-1758 | over any run without an over-long duplication, the end of recording time or a repeated flush, encoded = pictures offered + dup - reported drops; over any run at all the exact difference |
| VideoSync.MiscountHappens | contrib/FFmpeg/fftools/ffmpeg.c:1183-1188 | a run of two pictures from the first call on in which the counters are off |
| VideoSync.LateHappens | contrib/FFmpeg/fftools/ffmpeg.c:1217-1218 | a run cut by the end of recording time in which the counters are off |
| VideoSync.SecondFlushHappens | contrib/FFmpeg/fftools/ffmpeg.c:1212-1213 | a run with two flushes in which the second counts two duplicates and encodes none |
| VideoSync.CfrConsecutive | contrib/FFmpeg/fftools/ffmpeg.c:1142-1153 | at constant frame rate output timestamps are consecutive integers over any run |
| VideoSync.CfrTracks | contrib/FFmpeg/fftools/ffmpeg.c:1095-1153 | after each picture its end exceeds the output position by at most 0.5; nothing is encoded iff the end is more than 1.1 behind, one frame if it is within 1.1, and otherwise as many as bring it within 0.5 |
| VideoSync.CfrRate | contrib/FFmpeg/fftools/ffmpeg.c:1095-1153 | over a whole run the output covers the last picture up to half a frame and never runs more than 2.1 frames past the end of some picture |
| VideoSync.CfrSplit | contrib/FFmpeg/fftools/ffmpeg.c:1147-1152 | which frames repeat the last picture: those before a position 0.1 to 1.1 ahead of the new picture's start |
| VideoSync.ThresholdMeaning | contrib/FFmpeg/fftools/ffmpeg.c:1144-1145 | the drop threshold discards exactly the pictures that end before it, never the first |
| VideoSync.VfrStep | contrib/FFmpeg/fftools/ffmpeg.c:1154-1159 | variable rate: nothing for a picture that ends 0.6 or more behind, else one frame, at its own time within 0.5 when it ends more than 0.6 ahead, and the position follows |
| VideoSync.PassthroughStep | contrib/FFmpeg/fftools/ffmpeg.c:1160-1163 | one frame per picture, within 0.5 of its own time |
| VideoSync.VscfrIsCfr | contrib/FFmpeg/fftools/ffmpeg.c:1135-1141 | variable start is constant rate, after the first picture has moved the position to its own time |
| VideoSync.TimestampsRise | contrib/FFmpeg/fftools/ffmpeg.c:1054-1349 | over any run in all modes that do not pass timestamps through, the encoder gets strictly increasing timestamps |
| VideoSync.RepeatsRemembered | contrib/FFmpeg/fftools/ffmpeg.c:1172-1175 | the repeat counts of the last three calls are kept |
| VideoSync.FlushMeaning | contrib/FFmpeg/fftools/ffmpeg.c:1090-1094 | a flush repeats the last picture the median number of times of the last three calls |
| VideoSync.LongGaps | contrib/FFmpeg/fftools/ffmpeg.c:1183-1188 | no call encodes more than the duplication limit, and only pictures that far ahead are skipped |
| VideoSync.DropsRightIff | contrib/FFmpeg/fftools/ffmpeg.c:1177-1196 | an uncut call keeps the reported drops equal to the pictures never shown iff it neither miscounts nor mislabels a first picture |
| VideoSync.CountersMeanPictures | contrib/FFmpeg/fftools/ffmpeg.c:1177-1196 | over whole runs drops are the pictures never shown and duplicates the frames beyond each picture's first |
| VideoSync.MislabelHappens | contrib/FFmpeg/fftools/ffmpeg.c:1196-1211 | a run whose first picture starts late and is shorter than a frame: it is shown, and reported as dropped |
| VideoSync.OutputStream.DoVideoOut | contrib/FFmpeg/fftools/ffmpeg.c:1054-1349 | the method's new state is the step that the laws are about, and the frame count stays within its limit |
| PacketQueue.FirstInFirstOut | contrib/FFmpeg/fftools/ffplay.c:427-579 | put and get commute except on an empty queue, where the packet just put comes back |
| PacketQueue.OperationsKeepOrder | contrib/FFmpeg/fftools/ffplay.c:427-579 | serials never fall from head to tail and never exceed the queue's |
| PacketQueue.PutTraced | contrib/FFmpeg/fftools/ffplay.c:427-454 | serials count flush packets: a flush packet raises the queue's serial and its own by one, others do not, an aborted queue refuses all |
| PacketQueue.StartTraced | contrib/FFmpeg/fftools/ffplay.c:534-540 | a start raises the serial by one |
| PacketQueue.GetTraced | contrib/FFmpeg/fftools/ffplay.c:550-576 | packets come out in the order put, each with the number of flush packets up to it |
| PacketQueue.SeekSeparates | contrib/FFmpeg/fftools/ffplay.c:427-454 | packets put before a flush packet have smaller serials than all put from it on |
| PacketQueue.PacketQueue.PutPrivate | contrib/FFmpeg/fftools/ffplay.c:427-454 | list, counters, serial order kept; the sequence grows by the packet with its serial unless aborted; the serial rises by one exactly for a flush packet |
| PacketQueue.PacketQueue.GetOnce | contrib/FFmpeg/fftools/ffplay.c:550-576 | list, counters kept; the head is taken, or the abort or empty case reported |
| PacketQueue.PacketQueue.Flush | contrib/FFmpeg/fftools/ffplay.c:498-514 | the walk releases every packet in order and leaves an empty queue with the same serial |
| PacketQueue.PacketQueue.Start | contrib/FFmpeg/fftools/ffplay.c:534-540 | clears the abort flag and appends a flush packet with a serial one higher |
| DecoderSerial.StepKeeps | contrib/FFmpeg/fftools/ffplay.c:590-677 | every step of the reader, control and decoder threads keeps: each queued packet is preceded by the flush packet of its serial unless that was taken, and the codec holds data of one serial |
| DecoderRuns.NoMixing | contrib/FFmpeg/fftools/ffplay.c:590-677 | over every interleaving each packet sent had the queue's serial when checked, and since the last codec flush before it only packets of that serial were sent |
| DecoderRuns.NothingFromBeforeSeek | contrib/FFmpeg/fftools/ffplay.c:590-677 | over every interleaving, no flush packet was put between a packet that the codec got and its check |
| DecoderRuns.InOrderOnce | contrib/FFmpeg/fftools/ffplay.c:590-677 | over every interleaving, the codec gets packets in the order put and once each, except null packets decoded again |
| DecoderRuns.FinishedMeans | contrib/FFmpeg/fftools/ffplay.c:628-652 | the stream is finished for a serial exactly when the codec came to its end in it with no flush packet since |
| DecoderRuns.SomeRunSends | contrib/FFmpeg/fftools/ffplay.c:590-677 | runs that flush the codec and then send it a packet exist |
| FrameRing.StepKeeps | contrib/FFmpeg/fftools/ffplay.c:745-800 | every step of writer and reader keeps the ring invariant |
| FrameRing.WriterIsAlone | contrib/FFmpeg/fftools/ffplay.c:730-759 | while a slot is being filled it is not the last, current, next or any other slot the size covers for the reader |
| FrameRing.KeptFrameUntouched | contrib/FFmpeg/fftools/ffplay.c:787-800 | with keep_last, over any run from one frame_queue_next to the next, the frame passed stays in its slot, through release, index and size steps, and the writer never has that slot |
| FrameRing.RingIsQueue | contrib/FFmpeg/fftools/ffplay.c:745-800 | over every interleaving frames are shown in the order written, none lost or repeated, at most max_size live; the current and next frames and, with keep_last, the one shown last are in their slots, and the current and last are not being written |
| FrameRing.FrameQueue.TryPeekReadable | contrib/FFmpeg/fftools/ffplay.c:761-775 | hands out a slot iff a frame is unshown, and it holds the next frame in order |
| FrameRing.FrameQueue.PassFrame | contrib/FFmpeg/fftools/ffplay.c:787-793 | the first frame of a keep-last queue only becomes shown; otherwise the slot at rindex is released |
| Clocks.ReadIsLine | contrib/FFmpeg/fftools/ffplay.c:1374-1384 | a running clock reads pts + speed * elapsed, a paused one stands at pts |
| Clocks.SetThenRead | contrib/FFmpeg/fftools/ffplay.c:1374-1398 | a clock reads what it was set to, and nothing for another serial of its queue |
| Clocks.RebaseKeepsLine | contrib/FFmpeg/fftools/ffplay.c:1386-1404 | setting a clock to its own reading changes no reading at any time |
| Clocks.SpeedInRange | contrib/FFmpeg/fftools/ffplay.c:1457-1469 | the speed stays in [0.900, 1.010], falls by 0.001 or to the limit when starving, rises likewise with plenty, else moves one step of 0.001 towards 1 |
| Clocks.FillLevels | contrib/FFmpeg/fftools/ffplay.c:1457-1462 | starving means 2 packets or fewer in some stream there is, plenty more than 10 in each |
| Clocks.ApplyContinuous | contrib/FFmpeg/fftools/ffplay.c:1457-1497 | speed changes and pause toggles do not make the external clock jump |
| Clocks.ExternalClockRun | contrib/FFmpeg/fftools/ffplay.c:1374-1497 | over any run of them the external clock is defined, never goes back, and gains at most 1.010 per second |
| Clocks.VideoClockResume | contrib/FFmpeg/fftools/ffplay.c:1488-1494 | where the video clock continues after a pause, and the exact condition for no jump |
| Clocks.VideoClockPause | contrib/FFmpeg/fftools/ffplay.c:1496-1496 | pausing freezes the video clock at its last set value; the exact condition for no jump |
| Clocks.VideoClockJumps | contrib/FFmpeg/fftools/ffplay.c:1488-1496 | a clock that reads 5 before a pause, 0 during it and 7 after it |
| Clocks.Player.StreamTogglePause | contrib/FFmpeg/fftools/ffplay.c:1486-1497 | the new state of all three clocks and of the frame timer |

## Left out

- Range parsing of `read_huffman_tables` past the buffer: the buffer is taken with two padding bytes, which the packet buffers have.
- `init_vlc` and `get_vlc2`: modelled as prefix-code lookup; their own rejection of overlapping codes is not part of this model.
- The header fields of P-frames (stream sizes and offsets, 4xm.c:203-232): the bit, byte and word streams are given.
- The 256 motion displacements: a parameter, nothing proved depends on their values.
- The I-frame coefficient decoding, IDCT and colour conversion: fixed-size arithmetic.
- CFrames.Decoder.ReceiveChunk: without a slot the source goes on with index -1, outside the table; the model stops there. Allocation failure is not modelled.
- MuxQueue: 64-bit overflow of timestamps is not modelled; AV_NOPTS_VALUE is its integer value and rescaling is any function that stays above it. Muxer errors, packet durations, quality statistics and logging are left out.
- MuxQueue: the frame count of encoded video, which `do_video_out` keeps, is left out of the packet count there.
- BsfChain: filters that report an error other than "again" or "end" are left out.
- VideoSync: the choice of sync method from the container format, keyframe forcing, encoder errors and the encoder's packets are left out; rounding is exact with ties to even; one video stream owns the global counters.
- DecoderSerial: condition variables are modelled by steps that are not enabled; allocation failure, the pictures that the codec returns and failing filters are left out.
- FrameRing: the abort exits of the two peek functions return nothing and change nothing, and are not steps.
- Clocks: each call reads the time once; rounding of doubles, seeks and synchronisation to a slave clock are left out.
- PacketQueue.PacketQueue.GetOnce: one pass of the loop; waiting on the condition variable is the caller's.
