# MiBee Eye: verified models

Dafny models of the algorithms and protocols at the heart of the MiBee Eye IP
camera service, and proofs of what they are there for. They are written for Dafny
4.11; to check them, run `dafny verify dfyconfig.toml`.

| files | what they model |
|---|---|
| `annexb.dfy`, `annexb_laws.dfy` | the Annex-B start-code scanner, the batch parser and the incremental extractor; streaming refines batch parsing, printing and parsing undo each other (Annex B of ITU-T H.264, section B.1) |
| `camera_units.dfy`, `ffmpeg_units.dfy`, `stream_pump.dfy` | the read loops that turn reads of any size into access units, and the pump that puts cached parameter sets in front of keyframes |
| `segment_replay.dfy`, `recorder.dfy`, `recorder_files.dfy`, `recorder_ring.dfy` | the recorder's ring buffer, its segments and files, and the reader that replays a segment |
| `segment_index.dfy`, `retention.dfy` | the recording index with its file, and pruning by age and capacity |
| `plane_algebra.dfy`, `transpose.dfy`, `yuv_transform.dfy` | quarter turns and flips of YU12 frames: the laws, the tiled transpose, the in-place flips, and the capture pump |
| `downscale.dfy`, `padded_copy.dfy` | nearest-neighbour downscaling with cached tables, and the copy into stride-padded buffers |
| `wire.dfy`, `ieee754.dfy`, `rtmp_chunks.dfy`, `amf0.dfy` | the RTMP chunk writer and reader (section 5.3.1 of Adobe's RTMP specification, version 1.0) and AMF0 values (section 2 of the AMF0 specification) with their doubles |
| `hub.dfy`, `mse_realign.dfy`, `mse_clock.dfy` | the access-unit hub, the MSE stream loop with its loss realignment, and the shared media clock |
| `m2m_encoder.dfy`, `substream.dfy` | buffer ownership in the hardware encoder, and the substream's decimation and failover |
| `fmp4.dfy`, `fmp4_init.dfy` | fragmented MP4 media and init segments and a box parser (sections 4.2, 8.7.2 and 8.8 of ISO/IEC 14496-12) |
| `detection.dfy` | detector grids and non-maximum suppression |
| `basics.dfy` | shared types and sequence facts |

Code that updates state is modelled by classes and methods with loops; each is
proved equal to a function of its inputs or of its old state, and the laws are
lemmas about those functions. Concurrent parts are state machines over their
steps: a run is a list of events and results hold for all runs.

Where the code does something other than its comments say, the model follows the
code:

- The segment reader attaches parameter sets in the middle of a segment to the
  unit *before* them (`SegmentReplay.MidSegmentParameterSetsMove`); exactly which
  recordings come back unit for unit is `SegmentReplay.ReplayIsRecordingExactly`.
- Only segments opened by a roll are sure to start with a keyframe
  (`Recorder.SegmentsStartWithKeyframesExactly`).
- Pausing and resuming within the second a segment was opened in appends to its
  file, which then replays neither segment (`RecorderFiles.SharedFileReplaysNeither`).
- An access unit without a slice, such as the SEI the camera sends as a unit of its
  own, is not counted on replay, and every later unit of the segment gets the time of
  the one before it (`RecorderFiles.LoneSeiShiftsTheTimes`). A recording comes back
  segment by segment exactly if neither happens
  (`RecorderFiles.PumpedRecordingReplaysExactly`).
- Retention works by file and removes all records of one together
  (`Retention.AgeIsExact`), so the capacity limit can cost a segment that would have
  fitted (`Retention.CutFileIsLost`, `Retention.TrimIsNewestExactly`).
- The last NAL unit of a camera stream is never sent
  (`CameraUnits.FramesCarryTheStream`).
- A keyframe queued shortly before an overflow, or in the loop's hands, ends the MSE
  realignment too early. `MseRealign.DropIsHarmlessExactly` says when an overflow is
  harmless; `MseRealign.AHoleCanHappen` and `MseRealign.HeldKeyframeIsEnough` exhibit
  streams with a hole.
- Hub ids repeat after 0xD800 subscriptions (`Hub.IdsDistinctExactly`). A subscription
  that meets its own id among the current ones makes the hub forget a live subscriber
  (`Hub.NobodyIsForgottenExactly`, `Hub.CrowdIsServedExactly`).
- A partially read RTMP message is lost when another one completes first
  (`RtmpChunks.InterleavingExactly`).
- Downscaling a source one pixel wide or high reads behind its planes
  (`Downscale.InBoundsExactly`).
- The decimation ratio does not survive the 32-bit cut of its counter unless the
  period divides 2^32 (`Substream.RatioSurvivesWrapExactly`).
- A driver-owned encoder buffer can be queued again after the 32-bit buffer counter
  wraps, for buffer counts that divide 2^32 - 1 (`M2MEncoder.CollisionIsReachedExactly`),
  and for every buffer count when frames get stuck while the driver does not let the
  queue be stopped (`M2MEncoder.AtMostOneIsOutExactly`, `M2MEncoder.StuckRunCollides`).
- The address of an IPv6 server has colons itself, and what is cut from it at the
  first colon for `tcUrl` is not the host (`Amf0.HostComesBackExactly`).
- The data reference box of the init segment is written without version and flags: a
  reader that looks for its entries where the standard has them rejects every init
  segment (`Fmp4Init.StandardRejectsInitSegment`).

## Model

| member | source | states |
|---|---|---|
| AnnexB.CoresAreAll | internal/h264/parser.go:86-99 | the scan finds exactly the positions of 00 00 01, in order |
| AnnexB.FindStartCodes | internal/h264/parser.go:78-102 | the positions returned are those of all start codes, stepped back by one where a zero byte comes before |
| AnnexB.Parse | internal/h264/parser.go:24-74 | the loop with its early exit returns one NAL unit per non-empty stretch between start codes |
| AnnexB.ExtractCompleteNALUs | internal/camera/rpicamvid.go:588-618 | the incremental extractor returns the units between start codes and keeps everything from the last start code on |
| AnnexBLaws.ExtractStep | internal/camera/rpicamvid.go:472-474 | extracting, appending a read to what was kept and extracting again gives the same units and rest as extracting once from all of it |
| AnnexBLaws.StreamingRefinesBatch | internal/camera/rpicamvid.go:468-493 | for every stream and every way of cutting it into reads, emitted units and pending bytes are those of one extraction |
| AnnexBLaws.ExtractIsParseUpToLastStartCode | internal/camera/rpicamvid.go:586-618 | emitted units are the batch parse of the stream cut at its last start code, pending is the rest (all of it before the first start code), and at most one unit is outstanding |
| AnnexBLaws.RoundTripExactly | internal/h264/parser.go:20-74 | printing a list of units and parsing gives it back if and only if every unit is non-empty, without 00 00 01, and flagged by its type |
| AnnexBLaws.PrintTells | internal/recording/writer.go:225-235 | printing writes 00 00 00 01 and the data of each unit, in order |
| AnnexBLaws.ParsedTells | internal/h264/parser.go:62-70 | the type of a parsed unit is the low five bits of its first byte; IDR is 5, SPS 7 and PPS 8 |
| AnnexBLaws.ReframingPreservesUnits | internal/camera/rpicamvid.go:508-512 | re-framing any stream with four-byte start codes keeps its units |
| CameraUnits.SendFrame | internal/camera/rpicamvid.go:503-514 | a sent frame is the printed access unit |
| CameraUnits.ReadLoop | internal/camera/rpicamvid.go:464-499 | the frames sent are the printed groups of all complete units of the stream, the last group flushed at the end |
| CameraUnits.FlushConserves | internal/camera/rpicamvid.go:476-498 | grouping and flushing lose, invent and reorder no unit |
| CameraUnits.UnitsAreWellShaped | internal/camera/rpicamvid.go:620-635 | every access unit is a single unit, or an SPS followed by PPS and IDR units, or a PPS followed by IDR units |
| CameraUnits.KeyframeKeepsItsParameterSets | internal/camera/rpicamvid.go:620-635 | after any stream an SPS, PPS and IDR in a row form one access unit |
| CameraUnits.KeyframePictureStaysWhole | internal/camera/rpicamvid.go:620-635 | after any stream an SPS, a PPS and any number of IDR slices form one access unit |
| CameraUnits.JoinsExactly | internal/camera/rpicamvid.go:620-645 | a unit joins the access unit before it if and only if it is a PPS behind an SPS of it, or an IDR behind an SPS or a PPS of it; otherwise it ends that unit and starts the next |
| CameraUnits.OthersStandAlone | internal/camera/rpicamvid.go:620-635 | after any stream a unit that is neither parameter set nor IDR ends the access unit before it and starts its own |
| CameraUnits.CutsDoNotMatter | internal/camera/rpicamvid.go:469-493 | access units and pending bytes depend on the stream only, not on how reads cut it |
| CameraUnits.FramesCarryTheStream | internal/camera/rpicamvid.go:447-520 | parsing the sent frames gives the access units one by one, and together the parse of the stream without its last unit |
| FfmpegUnits.Flush | internal/camera/v4l2_source.go:550-558 | the key flag is set exactly when a parameter set or an IDR slice is in the unit |
| FfmpegUnits.ReadLoop | internal/camera/v4l2_source.go:522-548 | the units handed on are the groups of all complete units of the stream with their flags, however reads cut it; together they hold exactly these units |
| FfmpegUnits.FlagMeansIDRExactly | internal/camera/v4l2_source.go:522-558 | of all units handed on, the one flushed at the end included, the flag agrees with "contains an IDR slice" for exactly those that are not parameter sets alone |
| SegmentReplay.GroupByAU | internal/recording/reader.go:39-46 | the loop computes the grouping by slices |
| SegmentReplay.LoadSidecar | internal/recording/reader.go:78-104 | offsets are the sidecar's milliseconds as durations; missing and empty sidecars count as none |
| SegmentReplay.SegmentReader.Open | internal/recording/reader.go:31-54 | a reader holds the groups of the parsed file and starts at the first |
| SegmentReplay.SegmentReader.Next | internal/recording/reader.go:109-133 | units come in order with their payloads, IDR flag and sidecar offset, nominal 25 fps offsets where the sidecar ends |
| SegmentReplay.NominalPace | internal/recording/reader.go:122-128 | without a sidecar unit k is due 40 ms times k |
| SegmentReplay.GroupsConserve | internal/recording/reader.go:39-46 | regrouping loses, invents and reorders no unit |
| SegmentReplay.GroupsFollowSlices | internal/recording/reader.go:59-74 | there is one group per slice, in order |
| SegmentReplay.SlicesAre | internal/recording/reader.go:56-57 | the slices are the units of type 1 and 5 |
| SegmentReplay.ReplayFollowsExactly | internal/recording/reader.go:31-74 | the replay has as many units, the same NAL units in order and the same slice in each if and only if a stream can carry the NAL units and every unit has one slice, or at most one where it is alone; the keyframe flags then agree too |
| SegmentReplay.ReplayIsRecordingExactly | internal/recording/reader.go:59-74 | the replay is the recording unit for unit if and only if a stream can carry the NAL units and each unit after the first begins with its only slice |
| SegmentReplay.MidSegmentParameterSetsMove | internal/recording/reader.go:59-74 | parameter sets before a second IDR are replayed with the unit before them |
| StreamPump.Pump | cmd/server/main.go:492-537 | the loop makes of each frame with NAL units one access unit: the cached parameter sets it lacks, if it holds an IDR, then its units, flagged by the IDR |
| StreamPump.PumpedIsSound | cmd/server/main.go:499-537 | every access unit handed on is non-empty, of NAL units a stream can carry, and flagged keyframe if and only if it holds an IDR |
| StreamPump.UnitKeepsFrame | cmd/server/main.go:518-537 | an access unit has its frame's time, and the frame's NAL units in order behind what was put in front: an SPS, then a PPS, each only if the frame lacks it, and only before an IDR |
| StreamPump.OneUnitPerFrame | cmd/server/main.go:496-502 | there is one access unit per frame that has NAL units, in the order of the frames |
| StreamPump.CarryingAre | cmd/server/main.go:496-502 | these frames, in order, and no others |
| StreamPump.KeyframesCarrySetsExactly | cmd/server/main.go:504-529 | a keyframe is handed on with SPS and PPS if and only if this frame or one before brought an SPS, and one a PPS |
| StreamPump.SetsInFrontAreLatest | cmd/server/main.go:504-529 | a parameter set put in front is the latest of its kind in the stream |
| Recorder.Writer.SetPaused | internal/recording/writer.go:86-101 | pausing closes the open segment; asking for the present state changes nothing |
| Recorder.Writer.OpenSegment | internal/recording/writer.go:256-289 | a fresh segment that starts at the unit's time, on its file kept from before if there is one |
| Recorder.Writer.CloseSegment | internal/recording/writer.go:294-327 | its record, with start, end, size, frames and keyframes, is added to whatever the index holds, in memory and in its file |
| Recorder.Writer.HandleAU | internal/recording/writer.go:197-252 | fields and files stay those of the abstract recording after one unit: dropped while paused, rolled at a keyframe past the boundary, written otherwise; the index, filled at start and pruned meanwhile or not, grows by the segments closed |
| Recorder.Writer.OpenOrRoll | internal/recording/writer.go:206-223 | a segment is opened if there is none, and closed and opened anew at a keyframe that is due |
| Recorder.Writer.WriteUnit | internal/recording/writer.go:225-251 | one unit appended as Annex-B, one sidecar line, counters in step |
| Recorder.SegmentsHoldWhatWasHeard | internal/recording/writer.go:197-252 | over any run the segments hold exactly the units handled while not paused, in order |
| Recorder.NothingIsLost | internal/recording/writer.go:294-319 | frames, keyframes and bytes of the index plus the open segment are those of all units handled while not paused |
| Recorder.TimesAreCut | internal/recording/writer.go:239-248 | sidecar lines and index times are whole milliseconds, file names whole seconds, the rest cut off |
| Recorder.RecordTells | internal/recording/writer.go:275-316 | the record of a segment has, to the millisecond, the times of its first and last unit, the numbers of its units and keyframes, and the file of the second of its first unit |
| Recorder.RunRollsCleanly | internal/recording/writer.go:214-223 | over any run a segment opened by a roll starts with a keyframe at least the target duration after the previous start |
| Recorder.RunMissesNoRoll | internal/recording/writer.go:214-223 | over any run no segment goes on past the first keyframe that is due for a roll |
| Recorder.IndexIsOrdered | internal/recording/writer.go:309-316 | with non-decreasing timestamps each record ends no earlier than it starts and records follow each other without overlap |
| Recorder.SegmentsStartWithKeyframesExactly | internal/recording/writer.go:206-223 | every segment of a run starts with a keyframe if and only if each unit heard first, or first after a pause, is one |
| RecorderFiles.DiskHoldsContents | internal/recording/writer.go:262-274 | a file holds what it held before and the contents of all segments of its start second, one after the other |
| RecorderFiles.ContentReplaysExactly | internal/recording/reader.go:31-133 | a segment alone in its file is replayed (number of units, NAL units, slices, keyframe flags, times) if and only if a stream can carry its NAL units, flags are true, and every unit has one slice, or at most one where it is alone |
| RecorderFiles.FileReplaysExactly | internal/recording/reader.go:31-74 | reading a file gives the NAL units of all its segments if and only if a stream can carry them, in one unit per slice |
| RecorderFiles.RecordedSegmentReplaysExactly | internal/recording/writer.go:226-270 | for any run of non-empty units that a stream can carry, and any segment: its file replays it if and only if its units are as above and no other segment started in the same second |
| RecorderFiles.ReplayKeepsTime | internal/recording/reader.go:109-133 | with non-decreasing timestamps each replayed unit comes as long after the first as it was taken, less than a millisecond early and never late |
| RecorderFiles.FilesAreDistinctExactly | internal/recording/writer.go:206-270 | with non-decreasing timestamps all segments have files of their own if and only if no unit heard first after a pause falls in the start second of an earlier segment |
| RecorderFiles.RecordingReplaysExactly | internal/recording/writer.go:197-327 | every segment of such a recording is replayed by its file if and only if that condition holds and all segments have units as above |
| RecorderFiles.PumpedRecordingReplaysExactly | internal/recording/writer.go:197-327 | for units made of camera frames: if and only if that condition holds and no unit is without exactly one slice, except one without a slice that is alone in its segment |
| RecorderFiles.LoneSeiShiftsTheTimes | internal/recording/reader.go:59-74 | an SEI between two slices is an access unit for camera and recorder, but on replay joins the unit before it, and the next one gets its time |
| RecorderFiles.RecordingAgesExactly | internal/recording/retention.go:54-64 | of a recording whose segments have files of their own the age policy removes exactly the old segments |
| RecorderFiles.RecordingTrimsExactly | internal/recording/retention.go:68-81 | of any recording the capacity policy leaves exactly the newest segments that fit if and only if these do not begin inside a file |
| RecorderFiles.SameSecondSharesAFile | internal/recording/writer.go:258-270 | a run whose two segments start in the same second and go into one file |
| RecorderFiles.SharedFileReplaysNeither | internal/recording/writer.go:258-270 | that file replays neither of them |
| RecorderRing.Ring.Push | internal/recording/writer.go:159-182 | when full, the oldest non-keyframe makes room, or the oldest unit if all are keyframes |
| RecorderRing.Ring.Pop | internal/recording/writer.go:185-194 | the oldest unit, if any |
| RecorderRing.Ring.TakeDropped | internal/recording/writer.go:133-137 | the drop count is reported and starts again from zero |
| RecorderRing.RunsAreSound | internal/recording/writer.go:159-194 | over any interleaving the queue stays within capacity, popped then queued units are an order-preserving selection of the pushed ones, and pushes are pops plus queued plus drops |
| RecorderRing.KeyframesGoLast | internal/recording/writer.go:162-176 | a keyframe is dropped only when every buffered unit is one |
| PlaneAlgebra.Rot270UndoesRot90 | internal/camera/yuv_transform.go:46-52 | a quarter turn and back is the identity, for all plane sizes |
| PlaneAlgebra.Rot90UndoesRot270 | internal/camera/yuv_transform.go:46-52 | and in the other order |
| PlaneAlgebra.TwoQuarterTurns | internal/camera/yuv_transform.go:46-52 | two quarter turns are a half turn |
| PlaneAlgebra.FourQuarterTurns | internal/camera/yuv_transform.go:46-52 | four quarter turns are the identity |
| PlaneAlgebra.HalfTurnIsBothFlips | internal/camera/yuv_transform.go:20-34 | a half turn is a horizontal and a vertical flip |
| PlaneAlgebra.FlipsCompose | internal/camera/yuv_transform.go:122-123 | flips compose by exclusive or; each is its own inverse |
| PlaneAlgebra.FlipThroughRot90 | internal/camera/yuv_transform.go:20-34 | flipping after a quarter turn is turning after the flips with roles exchanged |
| Transpose.Gather | internal/camera/yuv_transform.go:88-97 | the source runs of a tile land in the tile row by row |
| Transpose.Scatter | internal/camera/yuv_transform.go:98-119 | the tile's columns land in the turned plane, reversed or not by direction, and nothing else changes |
| Transpose.TransposeBand | internal/camera/yuv_transform.go:88-119 | one band of tiles fills the cells of its source rows in all columns, and no other |
| Transpose.TransposePlane | internal/camera/yuv_transform.go:78-120 | for all sizes and both directions the tiled transpose writes exactly the turned plane; all indices are in range |
| YuvTransform.PlanIsRotateThenFlip | internal/camera/yuv_transform.go:20-34 | the plan's turn and flips equal the requested turn followed by the requested flips, on all three planes |
| YuvTransform.FrameMoves | internal/camera/yuv_transform.go:28-164 | turning a frame clockwise and then mirroring it puts every pixel of all three planes where plain coordinates say: after a quarter turn (x, y) comes from (y, h - 1 - x) |
| YuvTransform.TurnBack | internal/camera/yuv_transform.go:46-76 | turning a frame by 90 and 270 degrees in either order restores it |
| YuvTransform.RotateYU12 | internal/camera/yuv_transform.go:53-76 | for buffers of any length: every pixel of the frame at the front is where a quarter turn in the asked direction puts it, and the buffers trade places and stay disjoint; buffers that are too short stay, and the sizes are swapped all the same |
| YuvTransform.MirrorRow | internal/camera/yuv_transform.go:166-170 | the row is reversed in place |
| YuvTransform.MirrorCopy | internal/camera/yuv_transform.go:172-180 | a copy, reversed if asked |
| YuvTransform.FlipRows | internal/camera/yuv_transform.go:146-159 | exchanging rows from the outside in, with the middle row of an odd height mirrored alone, flips all rows |
| YuvTransform.MirrorRows | internal/camera/yuv_transform.go:160-163 | the row loop mirrors every row that starts inside the slice |
| YuvTransform.FlipPlane | internal/camera/yuv_transform.go:144-164 | the in-place loops with one row of scratch leave the mirrored plane, odd heights included |
| YuvTransform.FlipYU12 | internal/camera/yuv_transform.go:122-140 | for buffers of any length: every pixel of the frame at the front is mirrored on its plane as asked; buffers that are too short stay |
| YuvTransform.WholeRowsFitExactly | internal/camera/yuv_transform.go:136-163 | without spare room, the horizontal flip alone stays inside a buffer longer than the frame if and only if whole rows of chroma follow the frame |
| YuvTransform.Source.Transform | internal/camera/v4l2_source.go:345-363 | every pixel of a captured frame comes out where turning and then flipping as asked puts it, in a buffer other than the retained scratch; a frame that is too short comes out as it was |
| YuvTransform.Source.Pump | internal/camera/v4l2_source.go:328-378 | every delivered frame is the transform of its capture and stays so while later frames reuse the scratch |
| Downscale.ChromaInRange | internal/camera/downscale.go:101-112 | the halved chroma coordinate is inside the source chroma plane for all sizes from two up |
| Downscale.NearestExactly | internal/camera/downscale.go:23-36 | the table gives for i the one x with x * dst <= i * src < (x + 1) * dst |
| Downscale.ScaledExactly | internal/camera/downscale.go:56-75 | frames are scaled exactly when a smaller size is asked for and the source is all there |
| Downscale.AxisCache.MapAxis | internal/camera/downscale.go:23-36 | whatever calls came before, the table is the one computed directly |
| Downscale.LumaPlane | internal/camera/downscale.go:92-99 | every luma byte is the source byte at the floored coordinates |
| Downscale.ChromaPlanes | internal/camera/downscale.go:101-116 | wherever the reads are in bounds, every byte of both chroma planes is the source byte at the halved floored coordinates; luma is not touched |
| Downscale.InBoundsExactly | internal/camera/downscale.go:57-116 | for every accepted source length all chroma reads are in bounds if and only if the source is at least two pixels wide and high or reaches past the last index read |
| Downscale.DownscaleYU12Into | internal/camera/downscale.go:56-118 | identity, enlarging and short input copy the source; otherwise every byte of all planes is given by the floor formula; the source is unchanged and not shared |
| Downscale.ScaledLumaAt | internal/camera/downscale.go:92-99 | each luma pixel is the source pixel at the coordinates on the source scale, rounded down |
| Downscale.ScaledChromaAt | internal/camera/downscale.go:101-116 | each chroma pixel is the source pixel at half the coordinates that the luma pixel at twice its own, or the last one, is taken from |
| PaddedCopy.CopyPaddedI420 | internal/v4l2/encode.go:37-69 | the bytes written, or 0 and an untouched buffer when something is too short; the result is the padded frame |
| PaddedCopy.PaddedLumaHolds | internal/v4l2/encode.go:57-59 | each luma sample is at its row and column in the padded frame |
| PaddedCopy.PaddedUHolds | internal/v4l2/encode.go:60-63 | each sample of the first chroma plane is at its place |
| PaddedCopy.PaddedVHolds | internal/v4l2/encode.go:64-67 | each sample of the second chroma plane is at its place |
| PaddedCopy.LumaPlaces | internal/v4l2/encode.go:57-59 | in plain numbers: row r of the luma plane starts at r times the stride |
| PaddedCopy.ChromaPlaces | internal/v4l2/encode.go:60-67 | and rows of both chroma planes follow it at half the stride |
| PaddedCopy.PaddingUntouched | internal/v4l2/encode.go:57-67 | padding and everything around the rows of one plane is left alone |
| PaddedCopy.FramePaddingUntouched | internal/v4l2/encode.go:57-67 | and so is every byte of the buffer that no sample of the three planes goes to |
| RtmpChunks.WriteRawMessage | internal/rtmp/push.go:641-679 | the loop writes the message as one full chunk and Type 3 chunks |
| RtmpChunks.BasicHeaderTells | internal/rtmp/push.go:682-693 | format and chunk stream id are where section 5.3.1.1 has them, in all three forms |
| RtmpChunks.FullHeaderTells | internal/rtmp/push.go:695-753 | time, length, type and message stream id are at the places and in the byte orders of section 5.3.1.2, extended times behind |
| RtmpChunks.MessageTells | internal/rtmp/push.go:641-679 | behind a header of 12 bytes the data comes in pieces of the chunk size, with one byte of a Type 3 header in front of each but the first (for chunk stream ids below 64 and times of 24 bits) |
| RtmpChunks.FirstHeaderTells | internal/rtmp/push.go:641-679 | the fields of these 12 bytes |
| RtmpChunks.DeltaTells | internal/rtmp/push.go:816-879 | a Type 1 or 2 header adds its time to that of the chunk stream, modulo 2^32, and keeps the stream id |
| RtmpChunks.BasicRoundTrip | internal/rtmp/push.go:682-693 | chunk stream ids 2 to 65599 are read back from all three forms of the basic header |
| RtmpChunks.HeaderRoundTrip | internal/rtmp/push.go:691-753 | every header format is read back as what it means: absolute values, or deltas on the chunk stream's state, extended times included |
| RtmpChunks.ReadUndoesWrite | internal/rtmp/push.go:778-913 | reading a written message returns it and stops right behind it, whatever follows and whatever else is being reassembled |
| RtmpChunks.RoundTripExactly | internal/rtmp/push.go:641-913 | the round trip holds if and only if the chunk stream id is 2..65599 and the length 1..2^24-1 |
| RtmpChunks.ReadIsSane | internal/rtmp/push.go:778-913 | on any input a message has an id and length the format can express, and a proper, shorter rest of the input remains |
| RtmpChunks.StreamRoundTrip | internal/rtmp/push.go:641-913 | any list of messages is read back in order |
| RtmpChunks.CutAnywhere | internal/rtmp/push.go:641-679 | cutting a written message between any two of its chunks leaves the same bytes |
| RtmpChunks.TakesInFirstChunks | internal/rtmp/push.go:778-814 | any number of chunks that do not finish a message are taken in, and reading goes on behind them |
| RtmpChunks.InterruptedMessageIsLost | internal/rtmp/push.go:779-814 | a message sent between any two chunks of another is returned, the rest of the other is taken for an empty message |
| RtmpChunks.InterleavingExactly | internal/rtmp/push.go:779-814 | two reads return both messages if and only if the second one was put in front of the first chunk or behind the last chunk of the first |
| RtmpChunks.Connection.ReadBasicHeader | internal/rtmp/push.go:781-807 | one, two or three bytes are read and decoded as specified, or the stream ends |
| RtmpChunks.Connection.ReadMessageHeader | internal/rtmp/push.go:816-879 | the header reader computes the new state and consumes the header |
| RtmpChunks.Connection.ReadChunkData | internal/rtmp/push.go:881-911 | at most a chunk of what is missing is read, and the message is complete when nothing is |
| RtmpChunks.Connection.ReadMessage | internal/rtmp/push.go:778-913 | the loop over chunks returns the first completed message and leaves the position behind it |
| Amf0.AmfWriter.WriteNumber | internal/rtmp/amf.go:33-38 | the buffer grows by the encoded number |
| Amf0.AmfWriter.WriteBool | internal/rtmp/amf.go:41-48 | the buffer grows by the encoded boolean |
| Amf0.AmfWriter.WriteString | internal/rtmp/amf.go:51-62 | the buffer grows by the encoded string |
| Amf0.AmfWriter.WriteNull | internal/rtmp/amf.go:65-67 | the buffer grows by the encoded null |
| Amf0.AmfWriter.WriteObjectEntry | internal/rtmp/amf.go:77-91 | key and value are appended; anything but a number, string or boolean becomes null |
| Amf0.AppendThenEnd | internal/rtmp/amf.go:69-96 | entries written one by one and closed are the encoded object |
| Amf0.EntryIsNotEnd | internal/rtmp/amf.go:194-198 | an entry is never taken for the end marker |
| Amf0.SkipExactly | internal/rtmp/amf.go:170-213 | skipping any value, nested ones included, consumes exactly its encoding |
| Amf0.CutValueIsRejected | internal/rtmp/amf.go:170-228 | a value that is cut off anywhere is not skipped |
| Amf0.OtherMarkersAreRejected | internal/rtmp/amf.go:170-228 | nor is anything that starts with another marker |
| Amf0.StringSkippedExactly | internal/rtmp/amf.go:57-62 | a string is skipped exactly if and only if it is shorter than 65536 bytes |
| Amf0.EncodingIsUnique | internal/rtmp/amf.go:30-96 | no two values share an encoding and none is the start of another's |
| Amf0.EncodingTells | internal/rtmp/amf.go:30-96 | markers 0, 1, 2, 3 and 5, lengths of two bytes in network order, objects ended by 00 00 09 |
| Amf0.BodyTells | internal/rtmp/amf.go:30-96 | each entry of an object is its key behind its length, then its value, in order |
| Amf0.AmfReader.SkipValue | internal/rtmp/amf.go:170-213 | on any input the skipper stops, never past the end, with the verdict and position of the specification |
| Amf0.AmfReader.SkipEntries | internal/rtmp/amf.go:189-206 | the loop over entries ends at the end marker or at the first entry that is cut off |
| Amf0.AmfReader.ReadUtf8 | internal/rtmp/amf.go:138-150 | the bytes behind a length prefix, if they are all there |
| Amf0.AmfReader.ReadString | internal/rtmp/amf.go:126-151 | a string value is returned with its bytes, or nothing past the end is touched |
| Amf0.AmfReader.ReadNumber | internal/rtmp/amf.go:153-167 | the eight bytes of a number value |
| Amf0.ParseCommand | internal/rtmp/push.go:434-448 | name, transaction number and rest of a command |
| Amf0.CommandRoundTrip | internal/rtmp/push.go:434-448 | name, number and rest are recovered if and only if the name is shorter than 65536 bytes |
| Amf0.ParseStreamID | internal/rtmp/push.go:452-499 | the number behind null or an object of properties, cut to an unsigned 32-bit integer |
| Ieee754.IntegersComeBack | internal/rtmp/push.go:497-498 | every 32-bit integer written as a double is read back |
| Ieee754.ConversionRoundsDown | internal/rtmp/push.go:497-498 | a positive double below 2^32 becomes the largest integer that is not above it |
| Wire.BytesTell | internal/rtmp/push.go:700-735 | numbers in network order start with their most significant byte, little-endian ones with the least |
| Amf0.StreamIdRoundTrip | internal/rtmp/push.go:452-499 | a stream id sent as a double behind null or any properties is the id that is read |
| Amf0.WriteConnect | internal/rtmp/push.go:587-611 | the payload is the encoding of name, number, properties (with the address up to its first colon as host) and an empty object, and parses as connect with the double 1 and these objects |
| Amf0.ConnectTells | internal/rtmp/push.go:587-611 | under app, flashVer, tcUrl and fpad a server finds the application, the version, rtmp://host/app and false |
| Amf0.MediaTells | internal/rtmp/push.go:601-604 | and the numbers 15, 0, 128 and 1 under the keys of the media capabilities |
| Amf0.HostComesBackExactly | internal/rtmp/push.go:595-598 | the host cut from an address is the one it was joined from if and only if that has no colon |
| Amf0.NumbersWritten | internal/rtmp/push.go:590-604 | the bytes written for 0, 1, 2, 15 and 0x80 are these numbers as doubles |
| Amf0.WriteCreateStream | internal/rtmp/push.go:614-620 | the payload parses as createStream with the double 2 and null |
| Amf0.WritePublish | internal/rtmp/push.go:623-631 | the payload parses as publish with the double 0, null, the key and "live" |
| Hub.IdsDistinctExactly | internal/h264/hub.go:107-108 | the first n ids are distinct if and only if n is at most 0xD800 |
| Hub.RunsAreSound | internal/h264/hub.go:82-138 | in every run each subscriber's units are an ascending selection of the writes since it joined within its capacity, current subscribers' channels are open, and the global drop count is the sum of all |
| Hub.SubscribeLosesExactly | internal/h264/hub.go:105-125 | a subscription makes the hub lose somebody if and only if its id is still in the table |
| Hub.NobodyIsForgottenExactly | internal/h264/hub.go:82-138 | after any run followed by one more write, each write since joining is delivered, queued or counted as dropped, for everybody, if and only if no subscription of the run met its own id in the table |
| Hub.FewMeetNoId | internal/h264/hub.go:105-125 | in a run of at most 0xD800 subscriptions none does |
| Hub.CrowdIsServedExactly | internal/h264/hub.go:105-125 | when nobody leaves, n subscribers are all served if and only if n is at most 0xD800 |
| Hub.AUHub.Write | internal/h264/hub.go:82-96 | in any order of the map every current channel gets the unit or a drop count; none is closed |
| Hub.WriteReachesExactly | internal/h264/hub.go:82-96 | a write is queued for each current subscriber that has room, counted as dropped for those that have none, and changes nobody else |
| Hub.AllDeliveredExactly | internal/h264/hub.go:82-138 | in every run a subscriber gets every write since it joined, in order and with no drop counted, if and only if no write found its channel full |
| Hub.AUHub.Subscribe | internal/h264/hub.go:105-125 | a new, empty, registered subscriber |
| Hub.AUHub.Unsubscribe | internal/h264/hub.go:127-138 | the channel is closed, once; unknown ids are ignored |
| MseRealign.RealignTracker.Allow | internal/web/stream_mse.go:89-102 | after a changed drop counter or a drain only a keyframe is allowed, which ends the wait |
| MseRealign.StreamLoop.DrainStale | internal/web/stream_mse.go:198-211 | the fast-forward loop ends with the unit and the skip flag of the specified drains |
| MseRealign.StreamLoop.HandleUnit | internal/web/stream_mse.go:191-253 | one round of the loop is receiving, draining and deciding as specified |
| MseRealign.RoundIsARun | internal/web/stream_mse.go:191-253 | such a round is a run of the step machine in which nothing is written meanwhile |
| MseRealign.StreamStartsComplete | internal/web/stream_mse.go:213-231 | in every run sending starts with a keyframe, with both parameter sets known |
| MseRealign.SentInWriteOrder | internal/web/stream_mse.go:191-253 | in every run units are sent in write order, each at most once |
| MseRealign.SentExactly | internal/web/stream_mse.go:213-236 | a unit is sent if and only if it is a keyframe (the first one with both parameter sets seen) or nothing was lost or skipped since the last one sent |
| MseRealign.KeepingUpLosesNothing | internal/web/stream_mse.go:191-253 | in every run in which the loop keeps up, all writes from the first one sent are sent one after the other, or are waiting |
| MseRealign.NoHoleInCalmRuns | internal/web/stream_mse.go:191-236 | for every channel size: each unit sent is a keyframe or directly follows its true predecessor, in every run in which no write is lost while there is a way through the channel behind a keyframe (one held, or one the loop will send, with too few units behind it for a drain) |
| MseRealign.DropIsHarmlessExactly | internal/web/stream_mse.go:89-102 | for a write lost once sending has begun, wherever the loop is: no continuation has a hole if and only if there is no such way through |
| MseRealign.AHoleCanHappen | internal/web/stream_mse.go:76-102 | for every channel size there is a run that sends a frame without its predecessor |
| MseRealign.HeldKeyframeIsEnough | internal/web/stream_mse.go:76-102 | with a channel of three there is one in which no keyframe is queued when the write is lost |
| MseClock.Clock.Seed | internal/web/stream_mse.go:27-33 | a connection starts 90 ticks past the floor |
| MseClock.Clock.Publish | internal/web/stream_mse.go:35-43 | the floor only rises |
| MseClock.Timeline.Next | internal/web/stream_mse.go:59-74 | stamps are gapless, durations clamped to 90..18000 ticks, and the shared floor follows |
| MseClock.RunsKeepTime | internal/web/stream_mse.go:22-74 | stamps of a connection only grow, however connections interleave |
| MseClock.NewConnectionStartsPast | internal/web/stream_mse.go:16-33 | a new connection stamps past everything stamped before by any connection |
| M2MEncoder.AtMostOneIsOut | internal/v4l2/encode.go:265-390 | for every driver behaviour that lets its queues be stopped, at most one OUTPUT buffer is with the driver at the start of a call, the last one queued, and at most one frame is behind |
| M2MEncoder.AtMostOneIsOutExactly | internal/v4l2/encode.go:265-390 | with queues that cannot be stopped this holds throughout a run if and only if no call has a frame stuck behind another one while a STREAMOFF fails |
| M2MEncoder.UnstoppedQueueLeavesTwo | internal/v4l2/encode.go:280-285 | a run with a failing STREAMOFF after which two buffers are out |
| M2MEncoder.TargetIsFreeExactly | internal/v4l2/encode.go:320-328 | the buffer queued next is with the driver if and only if one is out, the counter has wrapped to 0 and the buffer count divides 2^32 - 1 |
| M2MEncoder.CollisionIsReachedExactly | internal/v4l2/encode.go:265-328 | some run in which the queues can be stopped queues a buffer the driver holds if and only if the buffer count divides 2^32 - 1 |
| M2MEncoder.StuckRunCollides | internal/v4l2/encode.go:265-328 | where they cannot be stopped, some run does for every buffer count |
| M2MEncoder.DefaultCountNeverCollides | internal/v4l2/encode.go:73-79 | with the default four buffers it never is |
| M2MEncoder.NothingIsOutWithoutErrors | internal/v4l2/encode.go:265-274 | as long as no call returned a transport error nothing is left with the driver |
| M2MEncoder.EncodeReturnsOldest | internal/v4l2/encode.go:364-389 | a successful call yields its own frame, or the one frame that was behind |
| M2MEncoder.EncodeSucceedsExactly | internal/v4l2/encode.go:265-390 | a call yields a frame if and only if its first attempt goes through on a free buffer, or the reset and the second attempt do |
| M2MEncoder.RetryStartsOver | internal/v4l2/encode.go:265-301 | a retry uses the first buffer, yields the frame of the call and leaves nothing behind |
| M2MEncoder.WorkingDriverYieldsAll | internal/v4l2/encode.go:265-390 | with a driver that works every call of a run yields its own frame, and nothing is left behind |
| M2MEncoder.Encoder.EncodeOnce | internal/v4l2/encode.go:303-390 | one attempt, failing at any point, moves counter and queues as specified |
| M2MEncoder.Encoder.ResetQueues | internal/v4l2/encode.go:276-301 | stopping a queue hands back what it held, the counter starts again only when every step went well |
| M2MEncoder.Encoder.Encode | internal/v4l2/encode.go:265-274 | usage errors are passed on; a transport error leads to one reset and, if it succeeds, one retry |
| Substream.GcdLoop | internal/camera/substream.go:31-36 | the loop computes Euclid's recursion |
| Substream.GcdIsGreatest | internal/camera/substream.go:30-36 | which divides both numbers and is divided by every common divisor |
| Substream.Ratio | internal/camera/substream.go:122-126 | keep times the main rate is period times the sub rate |
| Substream.KeptExactly | internal/camera/substream.go:237-243 | of each period of counts below 2^32 the first keep frames are kept |
| Substream.WindowKeepsExactly | internal/camera/substream.go:237-243 | any period of consecutive counts below 2^32 keeps exactly keep frames |
| Substream.RatioSurvivesWrapExactly | internal/camera/substream.go:239 | all windows do so if and only if the period divides 2^32 |
| Substream.RunsKeepEncodersInOrder | internal/camera/substream.go:267-341 | in every run an enabled pipeline has an open encoder, each encoder is opened once and used only while open, and there is at most one switch |
| Substream.NeverTwoOpen | internal/camera/substream.go:312-341 | in every run the failing encoder is closed before the fallback is opened, so that never two are open |
| Substream.StopClosesEverything | internal/camera/substream.go:272-276 | on stop every encoder that was opened has been closed exactly once |
| Substream.DisabledIsPermanent | internal/camera/substream.go:289-292 | once a run has disabled the pipeline, no continuation opens, uses or closes an encoder or changes anything else |
| Substream.FailingRunEnds | internal/camera/substream.go:296-305 | if every frame fails, the switch comes after ten and the pipeline is off after twenty at most |
| Substream.FirstEncoderLeavesExactly | internal/camera/substream.go:296-310 | in every run the first encoder is given up if and only if ten frames in a row failed, a success starting the count again |
| Substream.TenthFailureSwitches | internal/camera/substream.go:312-341 | the tenth failure brings the fallback if it opens, else the end |
| Substream.FallbackLeavesExactly | internal/camera/substream.go:296-341 | the fallback is given up if and only if ten frames in a row failed since it took over |
| Substream.Pipeline.Tap | internal/camera/substream.go:228-253 | which offers are queued, and that every other one is counted as dropped |
| Substream.Pipeline.SwitchOrDisable | internal/camera/substream.go:312-341 | the failing encoder is closed, then replaced once or the pipeline disabled |
| Substream.Pipeline.Consume | internal/camera/substream.go:267-310 | the loop and the deferred close compute the specified run |
| Fmp4.FullBoxIsBox | internal/web/fmp4.go:38-54 | a full box is a box that starts with version and flags |
| Fmp4.BoxTells | internal/web/fmp4.go:38-54 | a box starts with its whole length and its type |
| Fmp4.SegmentBoxesSpell | internal/web/fmp4.go:203-236 | the types of the boxes of a media segment |
| Fmp4.InitBoxesSpell | internal/web/fmp4.go:58-190 | the types of the boxes of an init segment |
| Fmp4.SampleBoxesSpell | internal/web/fmp4.go:58-190 | the types of the boxes of its sample table and its extends box |
| Fmp4.ParseUndoesBytes | internal/web/fmp4.go:38-54 | for every proper tree of boxes all sizes tile exactly and parsing returns the tree |
| Fmp4.BuildMediaSegment | internal/web/fmp4.go:193-237 | the segment is the fragment header for the sample's size followed by the sample in an mdat box |
| Fmp4.SegmentParses | internal/web/fmp4.go:203-236 | every media segment parses as exactly its boxes, by the standard |
| Fmp4.SampleStart | internal/web/fmp4.go:209-211 | the constant offset 108 is the first byte of the sample |
| Fmp4.TrunTells | internal/web/fmp4.go:213-222 | the trun box gives that offset, the duration, the size of the mdat payload and the sync flag |
| Fmp4.FragmentTells | internal/web/fmp4.go:205-207 | sequence number and 64-bit decode time are read back |
| Fmp4.SplitWhole | internal/web/fmp4.go:194-202 | cutting the payload by its lengths returns the units it was made of |
| Fmp4.KeptAppend | internal/web/fmp4.go:196-199 | the units kept are those that are not delimiters, in order |
| Fmp4.KeptExactly | internal/web/fmp4.go:196-199 | all units are kept but those of type 9 |
| Fmp4Init.ParameterSetsComeBack | internal/web/fmp4.go:64-74 | both parameter sets are read back from the decoder configuration if and only if their lengths fit 16 bits |
| Fmp4Init.BuildInitSegment | internal/web/fmp4.go:57-190 | the init segment is the bytes of its box tree |
| Fmp4Init.InitSegmentParses | internal/web/fmp4.go:57-190 | every box tiles its parent: read without a look into the data reference box, or with the four-byte header written there, it parses as its tree |
| Fmp4Init.StandardRejectsInitSegment | internal/web/fmp4.go:110-113 | a parser that takes the data reference box as the standard has it finds no entry there and rejects every init segment |
| Fmp4Init.InitSegmentHoldsParameterSets | internal/web/fmp4.go:64-91 | down the path to the decoder configuration both parameter sets are found |
| Fmp4Init.InitSegmentHoldsSize | internal/web/fmp4.go:77-156 | down the paths to track header and sample entry width and height are found |
| Fmp4Init.ConfigTells | internal/web/fmp4.go:62-73 | the decoder configuration has version 1, the profile bytes of the first set, four-byte lengths and one set of each kind |
| Fmp4Init.SampleEntryTells | internal/web/fmp4.go:77-91 | width and height, one frame per sample and 24 bits of colour |
| Fmp4Init.TrackTells | internal/web/fmp4.go:141-154 | track 1, width and height with 16 bits of fraction |
| Fmp4Init.MediaTells | internal/web/fmp4.go:115-185 | 90 000 ticks a second, handler "vide", samples of track 1 |
| SegmentIndex.Index.Load | internal/recording/index.go:45-77 | the records of the file, corrupt and blank lines skipped |
| SegmentIndex.RecordsTell | internal/recording/index.go:45-77 | loading goes line by line; blank and corrupt lines give nothing |
| SegmentIndex.Index.Append | internal/recording/index.go:81-104 | memory and file grow by the record |
| SegmentIndex.Index.Remove | internal/recording/index.go:126-182 | the file's records are gone and the rewritten file matches |
| SegmentIndex.Index.Lookup | internal/recording/index.go:106-121 | the records that overlap the range, in order; none for an empty range |
| SegmentIndex.Index.Snapshot | internal/recording/index.go:185-192 | the records sorted by start, ties in any order |
| SegmentIndex.Index.TotalSize | internal/recording/index.go:195-203 | the sum of all sizes |
| SegmentIndex.Changes | internal/recording/index.go:81-139 | after any sequence of appends and removals the file reloads to the list in memory |
| SegmentIndex.FoundExactly | internal/recording/index.go:106-121 | a lookup finds a record if and only if it shares a moment with the range |
| SegmentIndex.OverlappingPicks | internal/recording/index.go:106-121 | a lookup returns the records that overlap once each, in the order of the index |
| SegmentIndex.RemovedPicks | internal/recording/index.go:126-182 | removing a file leaves all other records, in their order |
| SegmentIndex.OneWayToSort | internal/recording/index.go:190 | without ties there is one sorted order |
| Retention.NewestIsLongest | internal/recording/retention.go:66-81 | what pruning leaves is the longest run of newest records within the limit |
| Retention.EnforceCapacity | internal/recording/retention.go:68-81 | the loop removes the file of an oldest record until the total is within the limit |
| Retention.TrimsWholeFiles | internal/recording/retention.go:68-95 | also with repeated files and equal start times: files go as a whole, each with a record no younger than all that is left, and with one file less removed the total would be over the limit |
| Retention.TrimIsNewestExactly | internal/recording/retention.go:68-81 | where files are stretches of start times, exactly that run is left if and only if it does not begin inside a file |
| Retention.CutFileIsLost | internal/recording/retention.go:84-95 | of two records of one file, the newer of which would fit, none is left |
| Retention.EnforceAge | internal/recording/retention.go:54-64 | every file with a record that ended before the cutoff is removed, and no other |
| Retention.AgeIsExact | internal/recording/retention.go:54-64 | that removes exactly the old records if and only if no file has an old and a young one |
| Retention.CutoffIsDaysBack | internal/recording/retention.go:54-64 | a record is too old when it ended more than 86 400 000 ms a day ago |
| Retention.KeptByAgeExactly | internal/recording/retention.go:54-64 | a record stays if and only if no record of its file ended longer ago than that |
| Retention.Enforce | internal/recording/retention.go:48-51 | age first, then capacity on what age has left |
| Retention.EnforcedIsNewestOfYoungExactly | internal/recording/retention.go:48-81 | if no file has an old and a young record, exactly the newest of the young records that fit are left, under the same condition |
| Detection.GridForInput | internal/ai/postprocess.go:52-63 | four levels of rounded-up sizes with their offsets and the number of points |
| Detection.YoloxGridForInput | internal/ai/yolox.go:48-59 | three levels of rounded-down sizes |
| Detection.Coords | internal/ai/postprocess.go:66-77 | the cell of a point exists in the grid, has that number, and is the only one |
| Detection.CellIsUnique | internal/ai/yolox.go:61-71 | different cells have different numbers |
| Detection.IndexInRange | internal/ai/postprocess.go:52-63 | every cell has a number below the number of points |
| Detection.OrderIsLevelMajor | internal/ai/postprocess.go:45-50 | numbers follow levels, then rows, then columns |
| Detection.Nms | internal/ai/postprocess.go:231-246 | the nested loops compute the survivors |
| Detection.SurvivorsArePicked | internal/ai/postprocess.go:231-246 | survivors are the candidates at the surviving positions, in their order |
| Detection.SurvivorsAreSeparated | internal/ai/postprocess.go:231-246 | no two survivors of one class overlap above the threshold |
| Detection.SurvivesExactly | internal/ai/postprocess.go:235-240 | a candidate survives if and only if no survivor before it, of its class, overlaps it above the threshold |
| Detection.NmsIsIdempotent | internal/ai/postprocess.go:231-246 | suppressing twice is suppressing once |

## Left out

- CameraUnits.ReadLoop: frames dropped by a full frames channel and the wall-clock times of frames are not modelled; reads are given as a list.
- AnnexB.Parse: units are values; that they share memory with the input is not modelled.
- RecorderFiles.RecordedSegmentReplaysExactly: the disk is empty at first, and nothing is deleted.
- Recorder.Writer.HandleAU: file operations succeed, timestamps are integers of nanoseconds, and a file is named by its start second alone; the configuration forces segments of at least 60 seconds (internal/config/config.go:802).
- RecorderRing.RunsAreSound: the recorder's queue is modelled apart from the goroutine wake-ups that drive it.
- Retention.EnforceCapacity: deleting segment files is not modelled, and removing the index record always succeeds.
- YuvTransform.FlipYU12: the horizontal flip alone asks for room for the chroma rows it starts behind the frame, as the original does; what becomes of the bytes behind the frame is not stated.
- YuvTransform.Source.Pump: asks for that room for each captured frame, in the buffer it is flipped in; capture errors, the encoder and the taps are not modelled, only the buffers handed to them; the read loop of the rotating rpicam pipeline reuses one frame buffer and is not modelled.
- Downscale.DownscaleYU12Into: asks for chroma reads inside the source where it scales, as the original needs; 32-bit wrap-around of the sizes is not modelled.
- PaddedCopy.CopyPaddedI420: 32-bit wrap-around of the sizes is not modelled; the stride is at least the width, as the negotiation ensures.
- RtmpChunks.WriteRawMessage: asks for a chunk size of at least 1 (with 0 the original never ends) and a non-negative chunk stream id; writer and reader use one chunk size, since announcing another size does not change it.
- RtmpChunks.MessageTells: for chunk stream ids below 64, as all that the client writes are, and times below 0xFFFFFF; the other forms of the header are in BasicHeaderTells and FullHeaderTells.
- Amf0.ParseStreamID: what the platform makes of a number that is no unsigned 32-bit integer is a parameter; other numbers are opaque bytes.
- Hub.RunsAreSound: cancellation is an Unsubscribe event; the drop logger is not modelled.
- MseRealign.NoHoleInCalmRuns: write errors and deadlines end the original loop and are not modelled.
- MseRealign.DropIsHarmlessExactly: for a loop that has sent something; before that, whether a lost write can do harm also depends on where the parameter sets are (that it does none without a way through is covered by NoHoleInCalmRuns).
- MseClock.Timeline.Next: 64-bit wrap-around of ticks is not modelled; wall-clock times are parameters.
- M2MEncoder.AtMostOneIsOutExactly: the CAPTURE buffers and the forced-keyframe control are not modelled, frames are numbers.
- Substream.Pipeline.Consume: the frame pool, the emitted frames and the opening of the first encoder are not modelled.
- Fmp4.SegmentParses: for samples whose mdat box fits 32 bits.
- Fmp4Init.BuildInitSegment: asks for a first parameter set of at least four bytes, which the original indexes without a check.
- Detection.Nms: overlap is an arbitrary function, so box decoding, scores and the overlap ratio are not modelled.
- Sockets, HTTP handlers, subprocesses, device ioctls, file systems and the external protocol libraries are not modelled.
- The HLS muxer, configuration, authentication, imaging parameters and the camera's restart logic are left out; they would add only easy members or are about timing.
