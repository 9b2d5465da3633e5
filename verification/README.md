# Cheetah media engine: verified model

A Dafny 4.11 model of the Cheetah media engine's I/O-free core: the containers that write and read media bytes, the NAL layer under
them, the HLS client, streaming decryption, the engine's lifecycle with its recovery policy and queues, and the memory arena. The
code's loops and mutable objects are methods and classes here; each is tied to a function that says what it computes, and the
properties are proved about those functions for every input and every run. `dafny verify dfyconfig.toml` checks all of it.

| modules | crate | main result |
|---|---|---|
| `Boxes`, `FragmentWriter`, `FragmentMuxer`, `FragmentReader`, `FragmentFields`, `FragmentRoundTrip`, `IsobmffDemuxer`, `StreamSteps`, `SegmentStream` | cheetah-container-isobmff | `SegmentStream.PlayChunks`: muxer, any chunking and demuxer give every sample back |
| `NestedBoxes`, `RunLength`, `Recorder`, `RecordedFile`, `Descriptors` | cheetah-container-isobmff | `RecordedFile.FileDescribes`: the tables of a recorded file describe it |
| `StartCode`, `H264`, `Rbsp`, `Sei`, `BitCursor`, `Adts` | cheetah-media-bitstream | splitting, escaping, SEI, Exp-Golomb and ADTS round trips |
| `AnnexB` | cheetah-container-annexb | `AnnexB.DemuxChunks`: incremental demuxing is one-shot splitting |
| `PsPayloads`, `PsVideo`, `PsAudio` | cheetah-container-mpegps | whole sessions: NAL units and ADTS frames with their payloads' times |
| `FlvTag`, `FlvDemuxer`, `FlvReorder`, `FlvPatch`, `FlvMuxer`, `FlvRoundTrip`, `FlvTakes` | cheetah-container-flv | `FlvRoundTrip.MuxThenDemux`, `FlvReorder.SortedExactly`, `FlvTakes.RunTaking` |
| `HlsClient` | cheetah-hls-client | `HlsClient.WalkLive`: a live session never asks twice but to retry |
| `Cbc` | cheetah-crypto-transforms | `Cbc.DecryptChunks`: streaming equals one-shot |
| `Recovery`, `Engine`, `Scheduler` | cheetah-media-engine | `Engine.RunEngine`, `Scheduler.FillAndEmpty` |
| `Arena` | cheetah-media-abi | `Arena.RunArena`: the slot map refines a plain list of regions |

`Bytes` (byte strings, big-endian fields) and `Ordered` (visiting a set in ascending order) are shared.

How to read it. A method's `ensures` gives its result or its new state as a function of the old one; ghost fields keep a history
(what was pushed, emitted, lost) that `Valid` ties to the real fields. Drivers such as `DemuxChunks`, `MuxRun`, `WalkLive`,
`RunTaking`, `RunEngine` and `RunArena` are not in the source: they are arbitrary callers, and their contracts are the theorems about whole runs.
Wall clocks, network completions, playlists and configuration contents are inputs. Types that the core only carries (track
information, media time, codec configuration, block ciphers) are type parameters or functions given by the caller.

## Where the code does less than one might expect

Each of these has the exact condition under which the property holds, and where one is named an input for which it fails.

- A NAL unit in front of another one survives Annex-B framing if and only if the scan for its end neither stands on a final zero
  byte in front of a 3-byte start code nor on a final 00 00 03 (`H264.SplitJoinExactly`, `AnnexB.AllNalsOfJoinExactly`; inputs:
  `H264.TrailingZeroIsLost`, `H264.TrailingProtectorSwallowsCode`). The last NAL unit always survives, and so does a trailing zero in
  front of a 4-byte code or protected by 00 00 03 (`H264.ProtectedZeroSurvives`).
- The stop byte of SEI data, which the source calls optional, may be left out if and only if no message of type 128 with an empty
  payload is followed by empty messages of type 0 only (`Sei.StopByteIsOptional`; input: `Sei.StopByteIsNeeded`).
- Times read back from a fragment are those written only if decode times advance by the durations
  (`FragmentRoundTrip.TimesExactly`).
- A recorded file whose `moov` needs a 64-bit size has a chunk offset 8 bytes too low (`RecordedFile.FileDescribes`).
- ADTS headers are rebuilt without the original, home and copyright bits (`Adts.BuildRestoresExactly`).
- The FLV demuxer's file mode never reads a tag: once the first size field has been consumed it is expected again
  (`FlvDemuxer.FileModeReadsNothing`).
- The FLV demuxer asks for more data although a complete tag is there, and so does not hand out its event until asked again, exactly
  when it has just dropped a tag without events at the very front of its buffer: one longer than 4096 bytes and than half the buffer
  (`FlvDemuxer.FlvDemuxer.TakeTag`; input: `FlvDemuxer.SilentTag`). With size fields there is no such tag.
- The FLV muxer patches header flags at byte 4 of whatever output is there; the stream is right if and only if every byte hit once
  output has been taken ends as it was, for which it is enough to add every kind of track before taking any
  (`FlvTakes.RunTaking`, `FlvTakes.KindsFirstIsSafe`; input: `FlvTakes.TakenHeaderIsPatched`).
- An HLS client started directly on a media playlist reloads it once: the reload is registered under the media playlist, but its
  answer is looked for under the master, since both have the same URL. A reload ends with its answer if and only if the two URLs
  differ (`HlsClient.WaitingExactly`, `HlsClient.DirectReloads`, `HlsClient.RepliesFreeReloads`).
- The engine plays without a track and a configuration if and only if the session went into rebuffering without them from idle or
  stopping, which an error answered by reconnecting the source does, and then the command to play comes (`Engine.OnlyByDetour`,
  `Engine.DetourPlays`; input: `Engine.PlayWithoutTrack`).
- The fragmented muxer counts a configuration as announced once its initialisation segment has been built: if the media segment of
  the same flush fails, no later flush hands the initialisation segment out until the configuration changes
  (`FragmentMuxer.FailedFlushLosesInit`).
- Pruning old attempts shortens the next retry's delay unless there are none of its kind, thirty are kept, the delay does not grow
  or is at its cap already (`Recovery.PruningKeepsDelay`; input: `Recovery.PruningShortensDelay`).

## Model

| member | source | states |
|---|---|---|
| SegmentStream.PlayChunks | crates/cheetah-container-isobmff/src/muxer.rs:84-138 | Any run of the muxer, the segments it writes behind any head and cut into any chunks, and the demuxer: the segments are those of the flushes that find packets, with an error exactly when a flush fails; if they keep the reader's limits, every byte is read, the samples are those of the segments in order, and on every track they have the payload, decode and presentation time, duration and keyframe flag of the packets pushed, up to what the last flush left and what was pushed since; behind the head's tracks there are packets only, numbered 0, 1, 2, … (mod 2^64), all of one epoch and none marked as a discontinuity |
| SegmentStream.StreamRuns | crates/cheetah-container-isobmff/src/demuxer.rs:72-137 | From any demuxer state that knows the tracks, a list of written segments at any stream offset is read to its last byte and yields exactly the samples of their runs |
| SegmentStream.StreamExact | crates/cheetah-container-isobmff/src/fragment.rs:325-393 | Track by track, the samples of a list of segments are the packets put into them, with the times they were pushed with, when every track advances by its durations |
| SegmentStream.SegmentsInStep | crates/cheetah-container-isobmff/src/demuxer.rs:167-236 | When every track advances by its durations, each run of each segment begins no earlier than its track's last decode time |
| StreamSteps.FragmentSilent | crates/cheetah-container-isobmff/src/demuxer.rs:167-236 | A fragment that goes on where its track ended gives its packets and nothing else: numbered on, in the same epoch, without a warning or a mark |
| SegmentStream.InitIntroduces | crates/cheetah-container-isobmff/src/demuxer.rs:139-165 | An initialisation segment read from the beginning announces its tracks in order, in the first epoch, and leaves no byte over |
| FragmentMuxer.FindCut | crates/cheetah-container-isobmff/src/muxer.rs:84-112 | A buffer is cut right behind its last keyframe, or at its end if it has none; at least one packet is taken and no keyframe is left |
| FragmentMuxer.FragmentedMp4Muxer.PushPacket | crates/cheetah-container-isobmff/src/muxer.rs:68-78 | A packet of an unknown track is refused without effect; any other is appended to its track only |
| FragmentMuxer.FragmentedMp4Muxer.FlushSegment | crates/cheetah-container-isobmff/src/muxer.rs:84-138 | Tracks are cut in ascending order into one non-empty run each; the segment is the written form of the runs, numbered; packets emitted and retained are still those pushed; the first error, of the initialisation segment or of the layout, loses the runs taken |
| FragmentMuxer.FragmentedMp4Muxer.RefreshInit | crates/cheetah-container-isobmff/src/muxer.rs:84-138 | An initialisation segment comes with the first flush and whenever the configuration hash has changed |
| FragmentMuxer.FlushConserves | crates/cheetah-container-isobmff/src/muxer.rs:84-112 | Cutting keeps, for every track: pushed = emitted followed by buffered |
| FragmentMuxer.MuxRun | crates/cheetah-container-isobmff/src/muxer.rs:68-138 | Any run of configurations, pushes and flushes, whatever fails: every operation is answered as those before it demand, a flush that finds packets with the written form of exactly the packets the cuts take, numbered, or the first error; what is buffered in the end is what the cuts have left and later pushes added |
| FragmentMuxer.CutsExactly | crates/cheetah-container-isobmff/src/muxer.rs:84-112 | The rule for cutting allows one result only: the runs up to each track's last keyframe, or all its packets, in ascending order of tracks, and the rest left behind |
| FragmentMuxer.RunConserves | crates/cheetah-container-isobmff/src/muxer.rs:68-112 | Over any run, what has been cut out followed by what is buffered are the packets accepted, track by track and in order |
| FragmentMuxer.FlushTakesAll | crates/cheetah-container-isobmff/src/muxer.rs:84-112 | At any point of a run, a flush cuts out one segment if any packet is buffered and none otherwise; it takes at least one packet of every track that has any, and leaves no keyframe |
| FragmentMuxer.OutputsAre | crates/cheetah-container-isobmff/src/muxer.rs:113-138 | If no flush fails, the segments handed out are the written forms of all that has been cut out, segment k with number k+1 (mod 2^32) |
| FragmentMuxer.FailedFlushLosesInit | crates/cheetah-container-isobmff/src/muxer.rs:113-138 | Finding: a flush that succeeds behind one that failed, in the same configuration, comes without an initialisation segment, although none may ever have been handed out |
| FragmentWriter.WriteMoof | crates/cheetah-container-isobmff/src/muxer.rs:545-605 | The box laid out with empty offsets and then patched equals the box laid out with each track's offset to its payload, or the first error in track order; an offset beyond i32 is an error |
| FragmentWriter.PatchNext | crates/cheetah-container-isobmff/src/muxer.rs:578-602 | Patching one track's offset at the recorded position changes that offset field and no other byte |
| FragmentWriter.WriteTrun | crates/cheetah-container-isobmff/src/muxer.rs:653-696 | The sample table has one 16-byte entry per packet, or the error of the first packet whose duration, size or composition offset does not fit |
| FragmentWriter.WriteMdat | crates/cheetah-container-isobmff/src/muxer.rs:706-714 | The payloads of all tracks, in the order of the runs |
| FragmentReader.ParseMoofBox | crates/cheetah-container-isobmff/src/fragment.rs:39-54 | The loop over track boxes finds the fragments the specification assigns to the children in order, or the first error |
| FragmentReader.ParseTrafBox | crates/cheetah-container-isobmff/src/fragment.rs:56-179 | The loop over the children finds the headers and tables they hold, of several of a kind the last, and resolves the samples, or gives the first error in the code's order |
| FragmentReader.ParseTrunBox | crates/cheetah-container-isobmff/src/fragment.rs:271-322 | The loop over the entries gives the table its flags announce, or the first error; tables over the limit are refused |
| FragmentFields.TrunReadsBack | crates/cheetah-container-isobmff/src/fragment.rs:271-322 | A sample table with any combination of optional fields, of either version, reads back as it was written, whatever follows it |
| FragmentFields.TfhdReadsBack | crates/cheetah-container-isobmff/src/fragment.rs:198-229 | A track fragment header with any combination of optional fields reads back as it was written, whatever follows it |
| FragmentFields.SamplesResolved | crates/cheetah-container-isobmff/src/fragment.rs:119-166 | Each sample has its entry's duration, size, flags and offset or else the defaults, and begins behind the sizes before it; this succeeds if and only if the data begins at a 64-bit offset and neither the last offset nor the total size leaves that range |
| FragmentFields.TrafReadsBack | crates/cheetah-container-isobmff/src/fragment.rs:56-179 | A track fragment with any optional fields: entries come before the fragment's defaults and these before the track's; offsets count from the header's base or else from the moof |
| FragmentReader.EmitPackets | crates/cheetah-container-isobmff/src/fragment.rs:325-393 | Samples are cut out of the mdat until the first that is out of bounds or out of the time range; the sequence number advances by exactly those emitted |
| FragmentRoundTrip.MoofReads | crates/cheetah-container-isobmff/src/muxer.rs:545-605 | A written moof parses back, wherever it stands, as one fragment per run whose first sample begins where its payload begins, for mdat headers of 8 and of 16 bytes |
| FragmentRoundTrip.SegmentReads | crates/cheetah-container-isobmff/src/fragment.rs:39-54 | A written segment reads back at every stream offset: the samples cut out of its mdat are the runs' payloads in order, with times added up from the base, durations and keyframe flags |
| FragmentRoundTrip.TimesExactly | crates/cheetah-container-isobmff/src/fragment.rs:325-393 | The times read back equal those written if and only if times are not negative and every decode time is the one before plus its duration |
| IsobmffDemuxer.RunTwice | crates/cheetah-container-isobmff/src/demuxer.rs:72-137 | Processing the boxes of a stream in two parts, cut at any byte, gives the events, the state and the error of processing it at once |
| IsobmffDemuxer.RestSmall | crates/cheetah-container-isobmff/src/demuxer.rs:58-69 | What is kept in the buffer is always less than one box |
| IsobmffDemuxer.DemuxChunks | crates/cheetah-container-isobmff/src/demuxer.rs:58-137 | Any chunking whose chunks are all accepted delivers exactly the events of the whole stream, up to the first box that fails and its error, or else leaves the same bytes over; chunks that fit the buffer behind an incomplete box are always accepted |
| IsobmffDemuxer.IsobmffDemuxer.NextEvent | crates/cheetah-container-isobmff/src/demuxer.rs:72-137 | Each call hands out the next event of the stream, or says that no box is complete, or reports the box that fails once all events before it are out; what the buffered bytes still give is otherwise unchanged |
| IsobmffDemuxer.IsobmffDemuxer.EmitMdatPackets | crates/cheetah-container-isobmff/src/demuxer.rs:167-236 | Pending fragments are emitted in order up to the first error and used up; time jumping back begins a new epoch with a warning |
| IsobmffDemuxer.IsobmffDemuxer.ApplyMoovTracks | crates/cheetah-container-isobmff/src/demuxer.rs:139-165 | Tracks are announced in order; a zero id is refused before anything changes; a second moov begins a new epoch |
| Boxes.HeaderReads | crates/cheetah-container-isobmff/src/boxes.rs:33-86 | A written box reads back with its type, size and header length, for the 32-bit and the 64-bit form, whatever follows |
| Boxes.NextReads | crates/cheetah-container-isobmff/src/boxes.rs:291-328 | A written box among others is the next box at its place, and its body is found |
| Boxes.HeaderStable | crates/cheetah-container-isobmff/src/boxes.rs:33-86 | A header recognised on a prefix is recognised the same on every extension, errors included |
| RecordedFile.FileDescribes | crates/cheetah-container-isobmff/src/recorder.rs:93-180 | A finished file, read from its first byte by following box types, has the number, sizes, durations, composition offsets and keyframe numbers of the samples (stco and co64 alike), all in one chunk, and the bytes at its chunk offset plus the running sizes are the payloads; the offset is right if and only if the moov header has 8 bytes, and otherwise 8 too low |
| RecordedFile.Record | crates/cheetah-container-isobmff/src/recorder.rs:57-180 | Recording packets and finishing gives a file described by its tables, whose samples are the payloads pushed |
| RecordedFile.MoovWritten | crates/cheetah-container-isobmff/src/recorder.rs:182-256 | Finding the offset field by its path and patching it gives the moov laid out with the offset, in the 4-byte or, if the offset needs it, the 8-byte table |
| RecordedFile.SyncsAre | crates/cheetah-container-isobmff/src/recorder.rs:321-333 | The sync table lists exactly the 1-based positions of the keyframes, in ascending order |
| Recorder.Mp4Muxer.Finish | crates/cheetah-container-isobmff/src/recorder.rs:93-180 | The file is ftyp, patched moov and mdat, or the first error in the code's order; nothing is changed |
| Recorder.Mp4Muxer.PushPacket | crates/cheetah-container-isobmff/src/recorder.rs:57-85 | Without configuration or for another track a packet is refused; otherwise its sample is appended with the defaults for missing or negative times |
| Recorder.Mp4Muxer.WriteMoovBody | crates/cheetah-container-isobmff/src/recorder.rs:202-283 | The nested boxes are written inside out; the offset field is found by path, or its absence reported |
| RunLength.EncodeDecodes | crates/cheetah-container-isobmff/src/recorder.rs:441-475 | Up to 2^32-1 values no counter saturates: the runs decode to the values, none is empty and neighbours differ |
| RunLength.RunLengthEncode | crates/cheetah-container-isobmff/src/recorder.rs:441-475 | The loop with its saturating counter builds the specified runs, or the error of the first value out of range |
| NestedBoxes.FindNestedBoxOffset | crates/cheetah-container-isobmff/src/recorder.rs:481-501 | The level-by-level search returns the body offset that the path determines, or none |
| NestedBoxes.ChildFound | crates/cheetah-container-isobmff/src/boxes.rs:291-328 | Among boxes written one after another, the first of a type is found with its body |
| NestedBoxes.PatchesBelow | crates/cheetah-container-isobmff/src/recorder.rs:132-152 | A field written over a nested body leaves every other byte of the enclosing boxes as it was |
| Descriptors.ReadInvertsWrite | crates/cheetah-container-isobmff/src/muxer.rs:473-495 | A descriptor with its base-128 length is read back whatever follows it |
| Descriptors.PrefixNeedsMore | crates/cheetah-container-isobmff/src/sample_entry.rs:214-241 | No proper prefix of a descriptor is taken for one |
| Descriptors.WriteDescriptor | crates/cheetah-container-isobmff/src/muxer.rs:473-495 | Taking digits from the low end, reversing and marking them gives the length most significant digit first |
| Descriptors.ReadDescriptor | crates/cheetah-container-isobmff/src/sample_entry.rs:214-241 | The loop reads the length the digits denote, or reports missing data or overflow |
| Descriptors.EsdsReads | crates/cheetah-container-isobmff/src/sample_entry.rs:185-212 | An esds body gives back the audio configuration it was written with |
| Descriptors.WriteEsds | crates/cheetah-container-isobmff/src/muxer.rs:433-471 | The nested descriptors are written inside out; a track id over 16 bits is refused |
| StartCode.FindStartCode | crates/cheetah-media-bitstream/src/h264.rs:119-142 | The scanning loop finds the first start code that is not behind an emulation-prevention byte |
| StartCode.FindPrefixStable | crates/cheetah-container-annexb/src/demuxer.rs:382-405 | A code found on a prefix is found, unchanged, on every extension |
| StartCode.FindShift | crates/cheetah-container-annexb/src/demuxer.rs:382-405 | The scan looks only at bytes from its starting point on |
| H264.SplitAnnexB | crates/cheetah-media-bitstream/src/h264.rs:145-177 | The splitting loop gives the specified list of units or its error |
| H264.SplitJoin | crates/cheetah-media-bitstream/src/h264.rs:145-177 | Splitting returns the NAL units that were joined, for any mix of 3- and 4-byte start codes, when none ends in 00 or 00 00 03 |
| H264.SplitJoinExactly | crates/cheetah-media-bitstream/src/h264.rs:119-177 | Non-empty, emulation-prevented units joined with any mix of start codes are returned by splitting if and only if the scan of each but the last, begun behind its header byte, neither stands on a final 00 in front of a 3-byte code nor on a final 00 00 03 |
| H264.TrailingZeroIsLost | crates/cheetah-media-bitstream/src/h264.rs:119-142 | Counterexample: a NAL ending in 00 in front of a 3-byte code comes back without it |
| H264.TrailingProtectorSwallowsCode | crates/cheetah-media-bitstream/src/h264.rs:119-142 | Counterexample: a NAL ending in 00 00 03 in front of a 3-byte code and the next one come back as one |
| H264.ProtectedZeroSurvives | crates/cheetah-media-bitstream/src/h264.rs:119-142 | A NAL ending in 00 00 03 00 comes back whole even in front of a 3-byte code |
| H264.AvccSplitJoin | crates/cheetah-media-bitstream/src/h264.rs:180-214 | Splitting length-prefixed data inverts writing it, for 1-, 2- and 4-byte prefixes |
| H264.AnnexBToAvcc | crates/cheetah-media-bitstream/src/h264.rs:217-224 | Succeeds if and only if every unit fits its prefix (an empty list always does), with the length-prefixed form of the split list |
| H264.AvccToAnnexB | crates/cheetah-media-bitstream/src/h264.rs:227-234 | The split list with a 4-byte code before each unit, or the splitting error |
| H264.ConversionRoundTrip | crates/cheetah-media-bitstream/src/h264.rs:217-234 | For all lists that splitting returns, converting to length prefixes and back keeps the list and puts 4-byte codes before its units; the conversion succeeds if and only if every length fits |
| Rbsp.UnescapeRbsp | crates/cheetah-media-bitstream/src/rbsp.rs:11-35 | The loop removes the emulation-prevention bytes the specification says are removed |
| Rbsp.RoundTrip | crates/cheetah-media-bitstream/src/rbsp.rs:11-35 | Removal inverts the insertion of H.264 section 7.4.1 on every byte string |
| Rbsp.FinalProtectorIsKept | crates/cheetah-media-bitstream/src/rbsp.rs:11-35 | A final 03 appended behind trailing zeros is kept as data |
| Rbsp.EscapedNalIsClean | crates/cheetah-container-annexb/src/demuxer.rs:319-333 | Escaped data ending in a non-zero byte can be delimited by start codes |
| Sei.ParseSeiMessages | crates/cheetah-media-bitstream/src/sei.rs:51-149 | The parsing loop gives the specified messages or error |
| Sei.ParseInvertsSerialise | crates/cheetah-media-bitstream/src/sei.rs:51-149 | A serialised list with stop byte and any zero padding parses back if and only if it keeps the limits; otherwise an error is reported |
| Sei.StopByteIsOptional | crates/cheetah-media-bitstream/src/sei.rs:44-149 | A serialised list without a stop byte parses back if and only if it keeps the limits and no message of type 128 with an empty payload is followed by nothing but empty messages of type 0 |
| Sei.StopByteIsNeeded | crates/cheetah-media-bitstream/src/sei.rs:51-149 | Counterexample: without the stop byte a last empty message of type 128 is lost |
| BitCursor.BitCursor.ReadBits | crates/cheetah-media-bitstream/src/bit.rs:77-107 | The value of the next n bits across byte boundaries, advancing by n; too many bits or too little data change nothing |
| BitCursor.ReadsCompose | crates/cheetah-media-bitstream/src/bit.rs:77-107 | Reading m and then n bits gives the value of reading m+n |
| BitCursor.BitCursor.ReadUe | crates/cheetah-media-bitstream/src/bit.rs:115-125 | Reads the code at the cursor, consuming what was looked at, and never reports an overflow |
| BitCursor.BitCursor.ReadSe | crates/cheetah-media-bitstream/src/bit.rs:128-137 | The signed value of the code at the cursor, never an overflow |
| BitCursor.UeInverts | crates/cheetah-media-bitstream/src/bit.rs:115-125 | Reading inverts the Exp-Golomb code of every value below 2^64-1, at any place and before any bits |
| BitCursor.UeOnly | crates/cheetah-media-bitstream/src/bit.rs:115-125 | Whatever is read is exactly the code of the value read |
| BitCursor.SeInverts | crates/cheetah-media-bitstream/src/bit.rs:128-137 | Signed codes read back over the whole range of i64 but its least value |
| BitCursor.BitCursor.SkipToByteAlignment | crates/cheetah-media-bitstream/src/bit.rs:67-74 | Skips the fewest bits to a byte boundary |
| AnnexB.DemuxChunks | crates/cheetah-container-annexb/src/demuxer.rs:112-153 | Any cutting into pushes, with any number of events or all of them pulled after each, then the end, delivers exactly the events of the stream at once if every push is accepted; a stream that fits the buffer always is, and a caller that pulls everything is accepted if and only if each chunk fits behind what the bytes before it leave uncut |
| AnnexB.CutEarly | crates/cheetah-container-annexb/src/demuxer.rs:189-225 | Cutting NAL units out early and going on with the rest gives the units of the whole, and the same rest |
| AnnexB.AllNalsOfJoin | crates/cheetah-container-annexb/src/demuxer.rs:189-259 | The demuxer's units of a joined list are that list when none ends in 00 or 00 00 03 |
| AnnexB.AllNalsOfJoinExactly | crates/cheetah-container-annexb/src/demuxer.rs:189-259 | The demuxer's units of a joined list of non-empty, emulation-prevented units are that list if and only if the scan of each but the last, begun at its first byte, neither stands on a final 00 in front of a 3-byte code nor on a final 00 00 03 |
| AnnexB.PacketsAreNumbered | crates/cheetah-container-annexb/src/demuxer.rs:355-376 | Packets are numbered 0, 1, 2, … (mod 2^64) and no NAL raises Eof |
| AnnexB.SeiSurvives | crates/cheetah-container-annexb/src/demuxer.rs:319-333 | A message list serialised, escaped and put into a NAL can be delimited by start codes and comes out as the metadata |
| AnnexB.AnnexBDemuxer.Push | crates/cheetah-container-annexb/src/demuxer.rs:112-123 | Bytes beyond the buffer limit put the demuxer in error; others are appended and the units seen so far are unaffected; behind Eof they change nothing that is handed out |
| AnnexB.AnnexBDemuxer.ProcessOne | crates/cheetah-container-annexb/src/demuxer.rs:189-225 | Takes one complete NAL out of the buffer and handles it, or reports one over the limit |
| AnnexB.AnnexBDemuxer.ProcessEof | crates/cheetah-container-annexb/src/demuxer.rs:227-259 | Handles all that is left and raises Eof once |
| AnnexB.AnnexBDemuxer.NextEvent | crates/cheetah-container-annexb/src/demuxer.rs:126-153 | Hands out the oldest event; fails only for an unknown codec, an earlier error or a broken limit |
| AnnexB.AnnexBDemuxer.Reset | crates/cheetah-container-annexb/src/demuxer.rs:168-182 | Whatever has happened, nothing is left of it: a stream fed from here on is handled as by a new demuxer |
| PsVideo.AssembleAll | crates/cheetah-container-mpegps/src/video.rs:52-98 | A whole session of any length: the events are those of the stream's NAL units in order, each with the time of the payload that holds its first byte; a full buffer is reported for some payload if and only if what the stream up to it leaves uncut is over the limit |
| PsVideo.TimeIsHolders | crates/cheetah-container-mpegps/src/video.rs:181-186 | A NAL's time is that of the one payload its first byte is in |
| PsVideo.AllAtNals | crates/cheetah-container-mpegps/src/video.rs:117-179 | The NAL list depends on the stream only, not on where its payloads are cut |
| PsVideo.Prune | crates/cheetah-container-mpegps/src/video.rs:188-196 | Pruning drops a prefix and answers every lookup at or behind the base as before; at most one entry at or below the base is kept |
| PsVideo.LookupFindsHolder | crates/cheetah-container-mpegps/src/video.rs:181-186 | The unpruned index gives each stream byte the time of the payload that holds it |
| PsVideo.VideoEsAssembler.ProcessPayload | crates/cheetah-container-mpegps/src/video.rs:52-69 | A payload is appended and complete units are emitted; errors come only from limits and an unsupported codec |
| PsVideo.VideoEsAssembler.Flush | crates/cheetah-container-mpegps/src/video.rs:71-98 | The units emitted over the session are all those of the stream, each with its holder's time; the buffer is emptied |
| PsAudio.AssembleAudio | crates/cheetah-container-mpegps/src/audio.rs:44-143 | On a valid ADTS stream cut into any payloads the track is announced once and the frames are the stream's; a frame that is the first to begin in a payload has that payload's time, any other the time before plus the duration |
| PsAudio.AudioAssembler.ProcessPayload | crates/cheetah-container-mpegps/src/audio.rs:44-143 | On every input less than one frame (at most 8190 bytes) is carried over; on a valid stream exactly the frames completed by the payload are emitted |
| Adts.SplitAdts | crates/cheetah-media-bitstream/src/aac.rs:215-239 | The splitting loop gives the specified frames or error |
| Adts.SplitConcat | crates/cheetah-media-bitstream/src/aac.rs:215-239 | Splitting inverts concatenation of frames |
| Adts.BuildInverts | crates/cheetah-media-bitstream/src/aac.rs:179-206 | A built header parses back to the same fields, whatever follows |
| Adts.BuildRestoresExactly | crates/cheetah-media-bitstream/src/aac.rs:109-206 | Building a parsed header restores its bytes if and only if the four bits no field keeps are 0 |
| HlsClient.WalkLive | crates/cheetah-hls-client/src/client.rs:161-182 | Over any live session without parts or seeks, whose window only moves forward, the numbers of newly requested segments rise strictly whatever completes first, fails or is reloaded; they are exactly those that the playlists and completions call for, up to the event that stops the client, behind which it asks for nothing; a stop or an unusable playlist always stops it, a failure only if it is not retryable or as many retryable ones of its resource as may be retried came before |
| HlsClient.PaceRises | crates/cheetah-hls-client/src/client.rs:400-448 | The numbers a session calls for rise strictly |
| HlsClient.WalkPicks | crates/cheetah-hls-client/src/client.rs:400-448 | The first segment not in flight is the next number never asked for |
| HlsClient.WalkResumes | crates/cheetah-hls-client/src/client.rs:555-584 | Resuming on a later window leaves nothing to be requested again |
| HlsClient.WalkCompletes | crates/cheetah-hls-client/src/client.rs:246-280 | Completions in any order keep every number up to the highest either completed or in flight |
| HlsClient.DirectReloads | crates/cheetah-hls-client/src/client.rs:308-369 | Finding: a client whose master URL is the media playlist's never asks for a second reload, whatever the clock and the server do |
| HlsClient.FollowReloads | crates/cheetah-hls-client/src/client.rs:184-244 | A whole live session, from the start through master and media playlists, ticks and replies: reloads are asked for at exactly the ticks that are due |
| HlsClient.WaitingExactly | crates/cheetah-hls-client/src/client.rs:454-467 | A reload is under way if and only if one has been asked for and either the media playlist's URL is the master's or no reply has come since |
| HlsClient.RepliesFreeReloads | crates/cheetah-hls-client/src/client.rs:308-369 | With any other URL, after a reply the next reload is asked for at the first tick at which the playlist is live and its interval has passed, and at no other |
| HlsClient.HlsClient.ScheduleDownloads | crates/cheetah-hls-client/src/client.rs:400-448 | At most one request a turn: the first part or segment from the current position on that is neither done nor in flight; the position moves over everything before it |
| HlsClient.HlsClient.OnPlaylistLoaded | crates/cheetah-hls-client/src/client.rs:184-244 | Master, reload and first playlist: cancellations and requests in their order; after a reload's answer a reload is still under way if and only if one was and its URL differs or is the master's; an unusable playlist stops the client |
| HlsClient.HlsClient.OnResourceLoaded | crates/cheetah-hls-client/src/client.rs:246-280 | A completion is taken out of flight, its position recorded and the next request made |
| HlsClient.HlsClient.OnRequestFailed | crates/cheetah-hls-client/src/client.rs:282-306 | A retry repeats the very request in a new epoch until the count is used up; then the client stops with the error |
| HlsClient.HlsClient.OnTick | crates/cheetah-hls-client/src/client.rs:308-369 | A reload is requested if and only if the playlist is live, none is under way and the interval has passed |
| HlsClient.HlsClient.OnSeek | crates/cheetah-hls-client/src/client.rs:371-398 | A seek cancels what is in flight and schedules from the target; without a VOD playlist or target it stops the client |
| HlsClient.HlsClient.BumpEpoch | crates/cheetah-hls-client/src/client.rs:479-495 | Everything in flight below the new epoch is cancelled, once each, and retry counts are forgotten |
| Cbc.DecryptChunks | crates/cheetah-crypto-transforms/src/cbc.rs:72-123 | Any chunking decrypts as the whole does: the same plaintext or the same error |
| Cbc.Recovers | crates/cheetah-crypto-transforms/src/cbc.rs:72-123 | Any plaintext that was padded and CBC-encrypted is recovered |
| Cbc.UnpadExact | crates/cheetah-crypto-transforms/src/cbc.rs:9-20 | A block unpads to n bytes if and only if it is its first n bytes padded |
| Cbc.DecryptInvertsEncrypt | crates/cheetah-crypto-transforms/src/cbc.rs:55-68 | CBC decryption inverts CBC encryption for every cipher whose decryption inverts its encryption |
| Cbc.DecryptAppend | crates/cheetah-crypto-transforms/src/cbc.rs:55-68 | Decrypting in two parts chains the second to the first |
| Cbc.CbcTransform.Update | crates/cheetah-crypto-transforms/src/cbc.rs:72-93 | Output so far is the decryption of all but the withheld block |
| Cbc.CbcTransform.Finalize | crates/cheetah-crypto-transforms/src/cbc.rs:95-123 | Output, withheld block and end give the result of one-shot decryption; a second call is refused |
| Cbc.NewTransform | crates/cheetah-crypto-transforms/src/cbc.rs:33-53 | A wrong IV length is refused; otherwise nothing has been fed yet |
| FlvRoundTrip.MuxThenDemux | crates/cheetah-container-flv/src/muxer.rs:127-166 | A run of the muxer succeeds if and only if every packet and the configuration of each kind's first track can be written; its file, cut into any chunks, gives the demuxer all its tags back: each packet's tag once, in DTS order if and only if no packet was later than the queue could mend, and each kind's configuration once, ahead of its media tags |
| FlvTakes.TakenHeaderIsPatched | crates/cheetah-container-flv/src/muxer.rs:182-196 | Finding: a packet is written and taken away, written again, and a second kind of track added; the flag patch hits the second tag, whose timestamp survives if and only if it already held the flag value |
| FlvTakes.RunTaking | crates/cheetah-container-flv/src/muxer.rs:108-196 | Any run of tracks, packets and output taken at any time: it succeeds with no packet refused if and only if every packet and every announcing track's configuration can be written; the bytes taken and the rest are the file with the tags written if and only if the flags put behind bytes already taken leave every byte as it was; before every operation, what has been taken and what is waiting are that file so far, and if no packet is refused all but the depth last packets in the order of writing are in it, each kind announced; in the end the tags are those of the packets, each once, sorted exactly when the queue could mend the disorder |
| FlvTakes.KindsFirstIsSafe | crates/cheetah-container-flv/src/muxer.rs:117-196 | When every kind of track is there before anything is taken, no flag is ever put in the wrong place and the header has all flags |
| FlvPatch.HarmlessExactly | crates/cheetah-container-flv/src/muxer.rs:182-196 | Bytes overwritten in a stream leave it as it was if and only if at each place the last one put back what stood there first |
| FlvMuxer.MuxAll | crates/cheetah-container-flv/src/muxer.rs:127-166 | Every packet's tag is written exactly once, and the media tags are sorted if and only if no packet arrives behind more than the queue depth of packets that belong behind it; each kind is announced once, by its first track's configuration ahead of its media tags; the run succeeds if and only if every packet and those configurations can be written |
| FlvMuxer.FlvMuxer.PushPacket | crates/cheetah-container-flv/src/muxer.rs:127-148 | The packet is queued and the least are written while the queue is over its depth |
| FlvMuxer.FlvMuxer.Finish | crates/cheetah-container-flv/src/muxer.rs:151-166 | Missing header and configurations are written, then the whole queue |
| FlvMuxer.FlvMuxer.WriteTag | crates/cheetah-container-flv/src/muxer.rs:305-340 | A body over 24 bits is refused without effect; otherwise the tag and, in file mode, its size field are appended |
| FlvReorder.SortedExactly | crates/cheetah-container-flv/src/muxer.rs:47-60 | The output is sorted if and only if every packet is preceded by at most depth packets that belong behind it |
| FlvReorder.NearPlaceSorts | crates/cheetah-container-flv/src/muxer.rs:127-148 | Packets that arrive at most depth places behind their sorted place come out sorted |
| FlvDemuxer.DemuxChunks | crates/cheetah-container-flv/src/demuxer.rs:137-201 | A stream of any length, with or without size fields, cut into any chunks the buffer takes, gives the file header and the events of its tags in order; tags without events are passed over, if they are not longer than 4096 bytes or there are size fields |
| FlvDemuxer.FlvDemuxer.TakeTag | crates/cheetah-container-flv/src/demuxer.rs:177-200 | A complete tag is consumed and its first event handed out; one without events is passed over, and taken for missing if and only if there are no size fields and it begins at the front of the buffer, longer than 4096 bytes and than half the buffer |
| FlvDemuxer.SilentTag | crates/cheetah-container-flv/src/demuxer.rs:137-201 | Finding: of three complete tags pushed at once in stream mode, the second without events, the last one's event is withheld for a call that says more data is needed if and only if the second is longer than 4096 bytes and than what is behind it, and comes behind more than 4096 bytes and more than what is left |
| FlvDemuxer.RecoverTags | crates/cheetah-container-flv/src/demuxer.rs:137-321 | Tag types, 32-bit timestamps and bodies are recovered, in order |
| FlvDemuxer.SizeCheck | crates/cheetah-container-flv/src/demuxer.rs:223-248 | The value where a size field may be equals the expected total if and only if a size field is there |
| FlvTag.TagIsNoSize | crates/cheetah-container-flv/src/demuxer.rs:251-279 | The first four bytes of a tag, read as a size, exceed every tag total |
| FlvTag.HeaderRoundTrip | crates/cheetah-container-flv/src/muxer.rs:325-340 | A written tag header parses back with type, size and full 32-bit timestamp |
| FlvDemuxer.FileModeReadsNothing | crates/cheetah-container-flv/src/demuxer.rs:137-201 | Finding: in file mode no input at all yields an event but one file header, however often the demuxer is asked |
| FlvDemuxer.FlvDemuxer.NextEvent | crates/cheetah-container-flv/src/demuxer.rs:137-201 | On a well-formed stream the first complete tag with events is reported with them, those without events before it are passed over; otherwise nothing, with the buffer bounded; a tag without events that begins and is dropped at the front of the buffer is consumed without the next one being looked at |
| Recovery.ClassifyIsMostSpecific | crates/cheetah-media-engine/src/recovery.rs:180-202 | An error gets the action of the first most specific matching rule, and is fatal without one |
| Recovery.DecideFromExact | crates/cheetah-media-engine/src/recovery.rs:214-283 | The decision is the first action along the strictly rising chain whose window budget is not used up, with the attempts left and a delay within the cap; otherwise to give up; never to escalate |
| Recovery.PruningKeepsDecision | crates/cheetah-media-engine/src/recovery.rs:308-310 | Pruning what no window reaches changes neither the action nor the attempts left |
| Recovery.PruningKeepsDelay | crates/cheetah-media-engine/src/recovery.rs:214-283 | Pruning never lengthens a retry's delay, and leaves it the same if and only if no attempt of the kind is older than the cutoff, thirty are kept, the base delay is zero, or the delay of those kept is already the cap |
| Recovery.PruningShortensDelay | crates/cheetah-media-engine/src/recovery.rs:264-283 | Counterexample: pruning an attempt outside the window halves the delay |
| Recovery.RecordKeepsNoStorm | crates/cheetah-media-engine/src/recovery.rs:294-296 | Recording a retry that was within its budget leaves no interval of window length with more than the allowed attempts |
| Recovery.RecoveryTracker.Attempts | crates/cheetah-media-engine/src/recovery.rs:299-305 | The times recorded for a code, stage and action, oldest first |
| Engine.RunEngine | crates/cheetah-media-engine/src/state.rs:344-366 | Over any run with a clock that does not go back, the reported state changes form a path of the lifecycle graph; every command and callback is answered with exactly the events and the next state that the state, the resources owned and the session it finds demand: preroll is entered exactly when the second of track and configuration comes while loading, and a connection resumes the state last left for rebuffering; an error is answered as the policy decides on the session's whole log, with a delay within its cap; the epoch counts the sessions, and no session ever has a retry storm |
| Engine.OnlyByDetour | crates/cheetah-media-engine/src/state.rs:423-440 | At any time of a run, a session that is in preroll, playing, paused or rebuffering without having had a track and a configuration went into rebuffering from idle or stopping before |
| Engine.DetourPlays | crates/cheetah-media-engine/src/state.rs:423-440 | Finding: after any such detour the next command to play is obeyed, without a track and a configuration |
| Engine.PlayWithoutTrack | crates/cheetah-media-engine/src/state.rs:599-644 | Finding: a new engine that gets a network error and then the command to play, but never a track, plays if and only if the policy answers the error by reconnecting the source |
| Engine.DestroyedIsFinal | crates/cheetah-media-engine/src/state.rs:344-366 | No path of the lifecycle graph leaves the destroyed state |
| Engine.Engine.Apply | crates/cheetah-media-engine/src/state.rs:344-366 | Every command: the events it must report and the state it leads to, along a path of the lifecycle graph; epoch, session log and ledger |
| Engine.Engine.RecoverOrFail | crates/cheetah-media-engine/src/state.rs:599-644 | The policy's decision on the attempts remembered is carried out: a retry reported and recorded, with a reconnect outside of loading, or failure |
| Engine.Engine.OnStop | crates/cheetah-media-engine/src/state.rs:457-494 | Whatever the state, a stop warns of what is owned, releases it and ends idle, with exactly these events |
| Engine.Engine.OnLoad | crates/cheetah-media-engine/src/state.rs:376-399 | A load in a running session stops it first; the new session has a new epoch and empty history |
| Engine.Engine.OnNetwork | crates/cheetah-media-engine/src/state.rs:510-539 | Connection, end of stream, retryable and fatal errors, with the state to return to remembered |
| Engine.Engine.OnBackend | crates/cheetah-media-engine/src/state.rs:541-584 | Callbacks of another session change nothing; the others report and, when track and configuration are there, enter preroll |
| Engine.Engine.Tick | crates/cheetah-media-engine/src/state.rs:322-326 | The clock is set and attempts no window reaches are forgotten |
| Scheduler.FillAndEmpty | crates/cheetah-media-engine/src/scheduler.rs:99-133 | A queue filled with any items and emptied yields the capacity-many most urgent ones as a multiset, most urgent first and equal ones in order of arrival |
| Scheduler.BoundedQueue.Push | crates/cheetah-media-engine/src/scheduler.rs:99-127 | A full queue gives up the oldest of its least urgent items for a strictly more urgent newcomer and refuses any other; whatever is lost, nothing less urgent is kept; every item is popped, queued or dropped exactly once |
| Scheduler.BoundedQueue.Pop | crates/cheetah-media-engine/src/scheduler.rs:130-133 | The earliest of the most urgent items leaves; the others keep their order |
| Scheduler.BoundedQueue.PollWatermarks | crates/cheetah-media-engine/src/scheduler.rs:151-172 | High and low watermark events alternate strictly and are reported exactly when the fill level reaches the one and is back at the other |
| Scheduler.EvictKeepsBest | crates/cheetah-media-engine/src/scheduler.rs:103-124 | Evicting the victim for a more urgent newcomer keeps the capacity-many most urgent levels |
| Scheduler.Scheduler.Pop | crates/cheetah-media-engine/src/scheduler.rs:280-288 | The most urgent item of all queues, from the earliest queue that has one so urgent; other queues are unchanged |
| Scheduler.Scheduler.Push | crates/cheetah-media-engine/src/scheduler.rs:244-276 | One queue takes the item as it would alone; an unknown queue drops it; the events are exactly the watermarks the queue has crossed and then the drops |
| Arena.RunArena | crates/cheetah-media-abi/src/arena.rs:82-204 | Any run of operations on the arena, however long, answers as the same run on a plain list of regions in which a released region is gone for good: stale when used, a double free when released again until a request takes its place, and refused requests exactly when 2^32 regions are there or 2^64 - 2 have been asked for |
| Arena.MemoryArena.Request | crates/cheetah-media-abi/src/arena.rs:82-127 | A region of zero bytes under a handle never issued before; no other contents change; limits are refused |
| Arena.MemoryArena.Validate | crates/cheetah-media-abi/src/arena.rs:232-256 | A handle is accepted exactly while it is live; a released one is a double free exactly as long as its slot has not been reused, then stale |
| Arena.MemoryArena.Write | crates/cheetah-media-abi/src/arena.rs:133-144 | Only the handle's region changes, at its front; too much data is refused |
| Arena.MemoryArena.Commit | crates/cheetah-media-abi/src/arena.rs:147-158 | Only the handle's region is cut; a longer length is refused |
| Arena.MemoryArena.Read | crates/cheetah-media-abi/src/arena.rs:184-191 | The contents of a live handle, an error for any other |
| Arena.MemoryArena.Release | crates/cheetah-media-abi/src/arena.rs:194-204 | Ends a live handle for good; releasing again is reported |
| Arena.MemoryArena.Store | crates/cheetah-media-abi/src/arena.rs:172-181 | A new region with the data; a failed store leaves no region behind |
| Arena.CheckExact | crates/cheetah-media-abi/src/arena.rs:232-256 | The generation of a slot tells live, just released and stale handles apart |

## Left out

- Qt, web demo, TypeScript, C bindings, Android stubs, codec pack and backend traits: user interface, foreign calls or empty stubs.
- `moov` parsing, sample entries, SPS and VPS fields, codec strings: track configuration is opaque; only the `esds` descriptors are modelled.
- H.265 splitting repeats `h264.rs` with a two-byte header; G.711 and MP3 tables are finite.
- AMF numbers, HLS durations and seeking by time, PCR drift: floating point; a seek carries the segment index its time falls in.
- Timestamp unwrapping in FLV and TS: tags are followed up to their 32-bit timestamps.
- The transmuxer, TS demuxing, DASH and the rest of the MPEG-PS system layer are not part of this model.
- Delta playlists, variant selection and playlist parsing of the HLS client: what they make of a body is an input.
- Configuration hashes are a function given by the caller; that equal hashes mean equal configurations is not claimed.
- Block ciphers and key schedules: any pair of block functions whose decryption inverts its encryption.
- Latency control, metrics contents and resource kinds' names.
- `usize` overflow checks on sums of buffer lengths, which no buffer in memory can reach; the 64-bit checks on file offsets are kept.
- AnnexB.DemuxChunks: the events before a push that is refused or a NAL unit over the size limit; `AnnexBDemuxer.Push` and `NextEvent` cover the calls.
- PsVideo.AssembleAll: streams that do not begin with a start code, or whose last NAL unit does not fit the buffer when the session ends; each call's contract covers them without the whole-session statement.
- PsAudio.AssembleAudio: streams that are not valid ADTS, for which only the bound on the carried bytes and the errors are stated.
- HlsClient.WalkLive: partial segments and seeks, because resuming skips a full segment whose parts are done; epochs that saturate after 2^64 requests; whether a failure concerns a request in flight, without which it stops nothing.
- IsobmffDemuxer.DemuxChunks: what a caller sees that goes on asking after an error.
- SegmentStream.PlayChunks: what is played of runs in which a flush failed, since the packets taken for it are lost; tracks whose times do not advance by their durations, for which `FragmentRoundTrip.SegmentReads` gives the times.
- FlvDemuxer.DemuxChunks: file mode, for which `FlvDemuxer.FileModeReadsNothing` is the whole truth; in stream mode only streams without size fields; tags that cannot be interpreted; in streams without size fields, tags without events over 4096 bytes, which may hold back what follows them as `FlvDemuxer.SilentTag` says.
- FlvMuxer.MuxAll: what the file holds when a run failed because a tag or configuration could not be written.
- RecordedFile.FileDescribes: `moov` boxes over the 1 TiB limit of the box reader.
- HlsClient.FollowReloads: completions, failures, seeks and further master playlists between the ticks and replies; the calls' contracts cover them.
- FlvTakes.RunTaking: the output of a run whose end fails, which no caller gets; which packets' tags the file has once a packet has been refused.
- Arena.RunArena: base addresses and instance ids of other arenas.
- Scheduler.BoundedQueue.Push: the drop counter saturates at 2^64 - 1.
