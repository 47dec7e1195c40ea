# Models of the correction pipeline

A Dafny model of the parts of the repository where a wrong step would be hardest to see, with proofs
about whole runs and whole inputs. `dafny verify dfyconfig.toml` checks everything.

Code that changes state is modelled as classes and loops, each proved against a specification function;
the properties are then proved about that function.

**Live transport.** `Wire`, `Crc24q`, `Rtcm3` and `Framing` give bytes, CRC-24Q, the frame layout of
section 4 (transport layer) of RTCM 10403.3 and a reference parser; `Crc24qDivision` says what the checksum is
and what it detects. `StreamingFraming` is the incremental
framer over arbitrary reads. `Handshake` judges responses. `BoundedBuffering` and `CaptureWriting` are the
queue, the capture files and the index scan. `CaptureRun` is a capture with reconnects as a function of
everything the environment answers; `LiveClient` is the client as nested loops over mutable objects and
refines it. `CaptureConservation` and `CaptureLifecycle` hold the results about whole runs.
`BitStream` is the bit writer and reader with quantised fields.

**Time series.** `CarrierArcs` is carrier-phase arc segmentation and median detrending; `RinexBody` reads
RINEX 2 observation bodies by line counts (Table A2 of the RINEX 2.11 specification); `EpochAccounting`
counts observed and missing epochs and decides "complete"; `Interpolation` and `CrossValidation` are the
spatial estimators and leave-one-out validation; `Windows` extracts stretches of overlapping days.

**Selection and archive.** `Selection` is the fail-closed decision between a virtual reference station, a
single base and nothing. `Archive` builds the canonical archive on a map from path to content.

`Text`, `Numbers` and `Ordering` hold white space and case, rounding, and stable sorting.

## The environment

Sockets and clocks are a script: one entry for each turn of the connection loop, holding what dialling,
the handshake and each read come back with, what the time and stall checks find, and shutdown requests.
Scripts are arbitrary; a run that outlives its script is "waiting", an exception that escapes is "raised",
and results about returned runs speak of neither. Checksums of files, distances, powers, the plane fit and
the reading of a seconds field are arbitrary functions (a distance is zero only between a point and itself,
a power of a positive number is positive). Numbers are unbounded integers and reals; the register, bytes
and packed fields are bit-vectors of the source's widths. Python's rounding is half to even. One delay is
therefore not modelled: `2.0 ** (attempt - 1)` (research/ntrip_ingestion/src/nlgcp_ntrip_ingest/backoff.py:44)
raises an overflow at attempt 1025, so a run that is allowed more reconnects than that, and makes them, does
not return.

## Where the code and its description part

The model follows the code.

- `stray_bytes` counts carried bytes again on the next read (`StrayByteCountedTwice`); it is exact if and
  only if no read but the last leaves junk directly before an unfinished frame whose header is there.
- A full queue costs two counted waits for each frame that arrives, one in the queue and one in the client.
- A run can end FAILED with captured bytes, after a failed dial or a missing response head on the last attempt
  (`FailedWithCapturedBytes`).
- A login refused with 401, 403 or 404 is retried when the first read behind the response head times out: the
  response is judged only after that read (`DenialIsRetriedAfterTimeout`), although terminal failures are said
  never to reconnect.
- A stream whose first 512 bytes contain ENDSOURCETABLE, in any letter case, is refused as wrong content
  (`FrameWithWordIsRefused`).
- An epoch with a seconds fraction of 0.9999995 or more is not recognised, because it rounds up to a whole
  second in microseconds (`AlmostOneIsRefused`).
- A row of observations longer than 80 columns shifts the columns of the rows after it (`LongRowShifts`).
- An event record without a time is not recognised and its records are read as body lines, which may look
  like epochs (`UntimedEventDesynchronises`).
- A run whose time is up before its first dial ends COMPLETE with nothing captured (`CompleteWithNothing`); when
  COMPLETE is returned is `CompleteIff`.
- "complete" means the full grid only when the interval divides the day (`CompleteIsGridIff`).
- The single-base ranking puts a distance of exactly zero after all positive ones (`ZeroDistanceLoses`).
- A datum station with an empty name is taken for no datum (`NamelessDatumKeepsConstant`); a fold datum therefore
  removes a common constant if and only if no station is nameless or the held-out one is
  (`DatumRemovesCommonConstant`).
- The network gate is said to require common epoch coverage and never to assume it, but a reference whose
  interval is unknown passes it, and then no common interval is asked of the others either
  (`UnknownIntervalPasses`).
- An accepted station without verified coordinates or navigation blocks a virtual reference station, while the
  same station with a worse verdict is passed over: lowering a station's verdict can promote the decision
  (`LoweringPromotes`; `LoweringAStation` says exactly when).
- Removing copy marks can leave one behind: "x (1) (2).z" becomes "x (1).z", so exact copies may be archived under
  two canonical paths (`StackedMarkStays`; `MarkFreeIff` says exactly when).

## Model

| member | source | states |
|---|---|---|
| `Crc24q.Compute` | research/rtcm_replay/src/nlgcp_rtcm_replay/crc.py:19-28 | The byte and bit loops compute the register of the whole message, which `Crc24qDivision.CrcIsRemainder` identifies. |
| `Crc24q.TrailerMatchesIffResidueZero` | research/rtcm_replay/src/nlgcp_rtcm_replay/crc.py:19-36 | For every body and any three trailing bytes: the body's checksum equals the trailer if and only if the register after body and trailer is zero. |
| `Crc24qDivision.CrcIsRemainder` | research/rtcm_replay/src/nlgcp_rtcm_replay/crc.py:1-28 | The register is the remainder of the message polynomial times x^24 after division, without carries, by the generator x^24 + x^23 + x^18 + x^17 + x^14 + x^11 + x^10 + x^7 + x^6 + x^5 + x^4 + x^3 + x + 1, and nothing else is. |
| `Crc24qDivision.RemainderIsUnique` | research/rtcm_replay/src/nlgcp_rtcm_replay/crc.py:19-28 | Quotient and remainder of a message are unique. |
| `Crc24qDivision.OddErrorsAreCaught` | research/rtcm_replay/src/nlgcp_rtcm_replay/crc.py:19-36 | Flipping an odd number of bits of a message with residue zero leaves a nonzero residue: the generator has an even number of terms. |
| `Crc24qDivision.BurstsAreCaught` | research/rtcm_replay/src/nlgcp_rtcm_replay/crc.py:19-36 | So does any change confined to 24 places in a row. |
| `Rtcm3.CrcOkIffResidueZero` | research/ntrip_ingestion/src/nlgcp_ntrip_ingest/framing.py:86-92 | The framer's verdict on a raw frame is exactly the zero-residue test. |
| `Rtcm3.MessageNumberRoundTrip` | research/rtcm_replay/src/nlgcp_rtcm_replay/framing.py:49-77 | The twelve-bit message number survives the two payload bytes it is packed into. |
| `Rtcm3.EncodedFrameIsValid` | research/rtcm_replay/src/nlgcp_rtcm_replay/framing.py:49-77 | Whatever the encoder emits is one complete frame for the framer, passes its check and carries its message number. |
| `Rtcm3.EncodedStreamRoundTrip` | research/rtcm_replay/src/nlgcp_rtcm_replay/framing.py:49-77 | Any list of encoded messages with junk between them, cut into arbitrary reads, comes back from the framer in order, each frame passing its check and carrying its message number. |
| `Rtcm3.DamageIsDetected` | research/ntrip_ingestion/src/nlgcp_ntrip_ingest/framing.py:86-92 | A frame that passes its check no longer does when an odd number of its bits is flipped or anything within 24 places in a row is changed. |
| `Framing.ParseSplit` | research/ntrip_ingestion/src/nlgcp_ntrip_ingest/framing.py:52-108 | Parsing a stream equals parsing a prefix and then the leftover bytes with the rest: frames, leftover and position agree for every cut. |
| `Framing.ParseTiles` | research/ntrip_ingestion/src/nlgcp_ntrip_ingest/framing.py:58-108 | Every parsed frame is exactly the slice of the input at its offset, obeys the layout, and frames are in order and disjoint. |
| `Framing.ParseRecovers` | research/ntrip_ingestion/src/nlgcp_ntrip_ingest/framing.py:58-108 | Well-formed frames interleaved with bytes holding no preamble are recovered exactly, in order, at their offsets. |
| `StreamingFraming.StreamingFramer.ScanBuffer` | research/ntrip_ingestion/src/nlgcp_ntrip_ingest/framing.py:60-108 | The in-place loop (pop one byte, or cut one frame) ends in the state and with the frames of the scan specification. |
| `StreamingFraming.StreamingFramer.Feed` | research/ntrip_ingestion/src/nlgcp_ntrip_ingest/framing.py:52-117 | One read changes the framer's buffer, position and both stray counters exactly as specified. |
| `StreamingFraming.FeedAllIsParse` | research/ntrip_ingestion/src/nlgcp_ntrip_ingest/framing.py:52-117 | Any sequence of reads yields what parsing all bytes at once yields. |
| `StreamingFraming.ChunkInvariance` | research/ntrip_ingestion/src/nlgcp_ntrip_ingest/framing.py:52-117 | Two ways of cutting the same bytes into reads, empty and one-byte reads included, give the same frames, leftover buffer and byte position. |
| `StreamingFraming.FramesTileTheInput` | research/ntrip_ingestion/src/nlgcp_ntrip_ingest/framing.py:49-117 | Position plus pending bytes is the number of bytes fed, frames are disjoint slices before the position, and at most max_frame_length + 5 bytes are pending. |
| `StreamingFraming.FramingRoundTrip` | research/ntrip_ingestion/src/nlgcp_ntrip_ingest/framing.py:52-117 | Frames with junk between them, cut into arbitrary reads, come back exactly and in order. |
| `StreamingFraming.StrayCountIsExactIff` | research/ntrip_ingestion/src/nlgcp_ntrip_ingest/framing.py:60-117 | stray_bytes is at least the number of bytes outside frames, and equals it if and only if no read but the last leaves a header's worth of bytes with junk of that read directly before it. |
| `StreamingFraming.StrayByteCountedTwice` | research/ntrip_ingestion/src/nlgcp_ntrip_ingest/framing.py:79-113 | A concrete input on which one stray byte is counted twice. |
| `StreamingFraming.FindingsAreHonest` | research/ntrip_ingestion/src/nlgcp_ntrip_ingest/framing.py:60-117 | Over all reads, the check failures reported are exactly the frames that fail, each once and in order, with offset, payload length and message number, and the lengths of the stray runs reported add up to stray_bytes. |
| `Handshake.TerminalIffDenied` | research/ntrip_ingestion/src/nlgcp_ntrip_ingest/handshake.py:87-128 | A response that is judged counts as terminal if and only if it is a well-formed 401, 403 or 404. When a run gets to judge one is `CaptureLifecycle.StatesAreSafe`. |
| `Handshake.AcceptedIff` | research/ntrip_ingestion/src/nlgcp_ntrip_ingest/handshake.py:71-116 | A 200 is accepted if and only if, behind blanks, <html and <!doctype do not begin within the first 1024 bytes, the body does not begin with STR;, CAS; or NET;, and ENDSOURCETABLE stands nowhere in the first 512; otherwise it is wrong content. |
| `Handshake.RefusedFor` | research/ntrip_ingestion/src/nlgcp_ntrip_ingest/handshake.py:91-128 | Which failure every other response gets: blank, protocol, then 401, 403 and 404 each its own. |
| `Handshake.FramesAreNotMistakenForPages` | research/ntrip_ingestion/src/nlgcp_ntrip_ingest/handshake.py:71-128 | A 200 whose body starts with a frame preamble is accepted exactly when ENDSOURCETABLE does not occur, in any letter case, in its first 512 bytes. |
| `Handshake.FrameWithWordIsRefused` | research/ntrip_ingestion/src/nlgcp_ntrip_ingest/handshake.py:71-128 | A frame whose payload spells ENDSOURCETABLE is refused as wrong content. |
| `BoundedBuffering.BoundedBuffer.Put` | research/rtcm_replay/src/nlgcp_rtcm_replay/buffer.py:43-56 | Accepts below capacity; otherwise refuses and counts a drop or a wait by policy; high-water mark and contents follow. |
| `BoundedBuffering.BoundedBuffer.ForcePut` | research/rtcm_replay/src/nlgcp_rtcm_replay/buffer.py:58-66 | Appends when there is room and otherwise reports failure with nothing changed. |
| `BoundedBuffering.BoundedBuffer.Take` | research/rtcm_replay/src/nlgcp_rtcm_replay/buffer.py:68-71 | Removes and returns the oldest item, or nothing. |
| `BoundedBuffering.OffersAreCounted` | research/rtcm_replay/src/nlgcp_rtcm_replay/buffer.py:43-56 | Any items put into an empty queue: the first up to the capacity stay, in order, and every other one is counted once, as a drop or as a wait by policy. |
| `CaptureWriting.CaptureWriter.WriteFrame` | research/ntrip_ingestion/src/nlgcp_ntrip_ingest/capture.py:266-302 | The frame is appended to the stream, one index row is appended, and byte, validity and message-type counts move by exactly that frame. |
| `CaptureWriting.CaptureWriter.RecordReconnect` | research/ntrip_ingestion/src/nlgcp_ntrip_ingest/capture.py:262-264 | A reconnect counts one disconnect and one reconnect. |
| `CaptureWriting.ValidateIndex` | research/ntrip_ingestion/src/nlgcp_ntrip_ingest/reporting.py:51-72 | The scanning loop reports the findings of the specification, in order. |
| `CaptureWriting.NoFindingIffSound` | research/ntrip_ingestion/src/nlgcp_ntrip_ingest/reporting.py:51-72 | The scan reports nothing if and only if every row is readable, numbers are consecutive from the expected one and arrival times never step back. |
| `LiveClient.NtripClient.SetState` | research/ntrip_ingestion/src/nlgcp_ntrip_ingest/client.py:145-147 | Appends the state to the transitions and nothing else. |
| `LiveClient.NtripClient.ForwardOrQueue` | research/ntrip_ingestion/src/nlgcp_ntrip_ingest/client.py:674-685 | A frame that finds the queue full costs two counted waits and moves the oldest frame to the consumer before it is queued. |
| `LiveClient.NtripClient.HandleFrame` | research/ntrip_ingestion/src/nlgcp_ntrip_ingest/client.py:600-685 | Writes, numbers and, only if the check passed, queues one frame. |
| `LiveClient.NtripClient.HandleChunk` | research/ntrip_ingestion/src/nlgcp_ntrip_ingest/client.py:598-703 | Feeds one chunk and handles its frames in order. |
| `LiveClient.NtripClient.ReadLoop` | research/ntrip_ingestion/src/nlgcp_ntrip_ingest/client.py:571-705 | The inner loop over budget, stall and read results refines the run function's stream loop. |
| `LiveClient.NtripClient.JudgeStream` | research/ntrip_ingestion/src/nlgcp_ntrip_ingest/client.py:706-720 | What happens after a stream ends: finish, give up or reconnect. |
| `LiveClient.NtripClient.Talk` | research/ntrip_ingestion/src/nlgcp_ntrip_ingest/client.py:503-720 | Handshake, judgement of the response and streaming of one connection refine the run function. |
| `LiveClient.NtripClient.TryOnce` | research/ntrip_ingestion/src/nlgcp_ntrip_ingest/client.py:470-725 | One turn of the connection loop refines the run function. |
| `LiveClient.NtripClient.Connect` | research/ntrip_ingestion/src/nlgcp_ntrip_ingest/client.py:464-725 | The connection loop refines the run function for every environment script. |
| `LiveClient.NtripClient.CaptureStream` | research/ntrip_ingestion/src/nlgcp_ntrip_ingest/client.py:393-774 | A capture, with its in-place updates of writer, queue, transitions and counters, ends in exactly the state of the run function; on return the queue is empty. |
| `CaptureConservation.PassFrameConserves` | research/ntrip_ingestion/src/nlgcp_ntrip_ingest/client.py:600-685 | Handling any frame keeps: stream file, index, counters, queue and consumer together account for all frames so far. |
| `CaptureConservation.StreamLoopConserves` | research/ntrip_ingestion/src/nlgcp_ntrip_ingest/client.py:571-705 | The whole read loop of a connection keeps conservation and the byte bound. |
| `CaptureConservation.LoopConserves` | research/ntrip_ingestion/src/nlgcp_ntrip_ingest/client.py:464-725 | So does every sequence of connections. |
| `CaptureConservation.CaptureConserves` | research/ntrip_ingestion/src/nlgcp_ntrip_ingest/client.py:464-774 | On every run that returns, the stream file is the in-order concatenation of the frames parsed from what each connection was fed, each frame has its index row with consecutive numbers, and the consumer gets exactly the frames that passed their check, in order, none dropped. What a row holds is `CaptureConservation.IndexLocatesFrames`. |
| `CaptureConservation.IndexLocatesFrames` | research/ntrip_ingestion/src/nlgcp_ntrip_ingest/client.py:598-614 | On every run that returns, row i has number sequence + i, the arrival time taken for it and the offset, length, message and verdict of frame i; that length of bytes in the stream file, behind the lengths of the earlier rows, and at that offset in what the frame's connection was fed, are the frame. |
| `CaptureConservation.FedIsDelivered` | research/ntrip_ingestion/src/nlgcp_ntrip_ingest/client.py:570-600 | Each attempt whose response was accepted, and no other, has one entry among what connections were fed, in order: a front part of what its socket delivered behind the response head, and the whole of it up to the end when its stream ended. |
| `CaptureConservation.WholeStreamIsFed` | research/ntrip_ingestion/src/nlgcp_ntrip_ingest/client.py:574-600 | A connection that runs to the end of its stream was fed every byte before the end, response remainder included. |
| `CaptureConservation.BudgetBound` | research/ntrip_ingestion/src/nlgcp_ntrip_ingest/client.py:468-580 | Captured bytes never exceed budget + max_frame_length + 4100 (and are zero for a budget below 1). |
| `CaptureConservation.IndexHasNoFindings` | research/ntrip_ingestion/src/nlgcp_ntrip_ingest/client.py:600-614 | With a non-decreasing clock, the index of any run passes the validation scan without findings. |
| `CaptureLifecycle.StatesAreSafe` | research/ntrip_ingestion/src/nlgcp_ntrip_ingest/client.py:464-774 | Apart from shutdown notices every STREAMING directly follows AUTHENTICATING and that CONNECTING; BLOCKED is entered if and only if the last attempt dialled got a well-formed denial and its first read behind the head came back, and nothing but STOPPED follows it; a returned run ends in STOPPED. |
| `CaptureLifecycle.BlockedIsLast` | research/ntrip_ingestion/src/nlgcp_ntrip_ingest/client.py:533-543 | In any sequence of states allowed by the diagram nothing follows BLOCKED. |
| `CaptureLifecycle.ReconnectsAreBounded` | research/ntrip_ingestion/src/nlgcp_ntrip_ingest/client.py:464-551 | At most max(1, max_reconnects) dials and max(0, max_reconnects - 1) sleeps; dials - 1 <= reconnects <= dials; the capture counts equal disconnects and reconnects. |
| `CaptureLifecycle.DelaysGrowToTheCap` | research/ntrip_ingestion/src/nlgcp_ntrip_ingest/backoff.py:36-48 | Delays are positive, non-decreasing in the attempt and capped at the maximum. |
| `CaptureLifecycle.DelaysDouble` | research/ntrip_ingestion/src/nlgcp_ntrip_ingest/backoff.py:36-48 | The first delay is the base delay and the next is twice this one, unless the maximum is smaller. |
| `CaptureLifecycle.StatusIsHonest` | research/ntrip_ingestion/src/nlgcp_ntrip_ingest/client.py:491-551 | A returned PARTIAL has captured bytes; a run with captured bytes ends FAILED if and only if its last attempt, not followed by a reconnect, failed to dial or never got a response head. |
| `CaptureLifecycle.CompleteIff` | research/ntrip_ingestion/src/nlgcp_ntrip_ingest/client.py:460-720 | A returned run that stopped between attempts is COMPLETE if and only if no shutdown was asked for, and then time or budget was used up; one that stopped inside an attempt is COMPLETE if and only if that attempt streamed and its loop, not closed by a shutdown, met the end of time, of the budget or, with captured bytes, of the stream. |
| `CaptureLifecycle.CompleteWithNothing` | research/ntrip_ingestion/src/nlgcp_ntrip_ingest/client.py:464-469 | A run whose time is up at the first check ends COMPLETE without a dial or a byte. |
| `CaptureLifecycle.DenialIsRetriedAfterTimeout` | research/ntrip_ingestion/src/nlgcp_ntrip_ingest/client.py:519-533 | A 401 whose first body read times out is followed by a reconnect. |
| `CaptureLifecycle.FailedWithCapturedBytes` | research/ntrip_ingestion/src/nlgcp_ntrip_ingest/client.py:491-498 | A run of two attempts that captures a frame and then fails to dial ends FAILED with captured bytes. |
| `BitStream.ValueOfBitsOf` | research/rtcm_generation/src/nlgcp_rtcm_generation/bitstream.py:17-28 | The bits written for a number, read back, are the number, for every width it fits. |
| `BitStream.UnpackPack` | research/rtcm_generation/src/nlgcp_rtcm_generation/bitstream.py:33-43 | Packing whole bytes and unpacking them gives the same bits. |
| `BitStream.PackIs` | research/rtcm_generation/src/nlgcp_rtcm_generation/bitstream.py:33-43 | Byte i is the number whose binary digits are bits 8i to 8i + 7, the most significant first. |
| `BitStream.FitsIff` | research/rtcm_generation/src/nlgcp_rtcm_generation/bitstream.py:17-28 | A value fits a width if and only if some bits of that width are worth it, the first of a signed one counting negative. |
| `BitStream.FieldsRoundTrip` | research/rtcm_generation/src/nlgcp_rtcm_generation/bitstream.py:17-67 | Any list of signed and unsigned fields that fit their widths, written, zero-padded, packed and read with the same widths, gives the same values. |
| `BitStream.BitWriter.WriteUnsigned` | research/rtcm_generation/src/nlgcp_rtcm_generation/bitstream.py:17-21 | Accepted exactly when value and capacity allow it; then the field's bits are appended, else nothing changes. |
| `BitStream.BitWriter.WriteSigned` | research/rtcm_generation/src/nlgcp_rtcm_generation/bitstream.py:22-28 | The same for signed values, in two's complement. |
| `BitStream.BitWriter.ToBytes` | research/rtcm_generation/src/nlgcp_rtcm_generation/bitstream.py:33-43 | Pads in place with zeros to whole bytes and packs them; a second call gives the same bytes. |
| `BitStream.BitReader.ReadUnsigned` | research/rtcm_generation/src/nlgcp_rtcm_generation/bitstream.py:55-63 | Reads the number in the next bits and advances, or refuses and stays. |
| `BitStream.BitReader.ReadSigned` | research/rtcm_generation/src/nlgcp_rtcm_generation/bitstream.py:65-67 | The same with the sign bit interpreted. |
| `BitStream.QuantisedRoundTrip` | research/rtcm_generation/src/nlgcp_rtcm_generation/fields.py:23-44 | When the rounded range ends fit the width, every valid value encodes, survives the bits and decodes to within half a scale step. |
| `CarrierArcs.ComputeGfSeries` | research/atmospheric_spatial_model/src/nlgcp_atmospheric_model/combinations.py:120-164 | The loop over epochs with its remembered phase, time and LLI computes the specified series and arc ids. |
| `CarrierArcs.UsableIff` | research/atmospheric_spatial_model/src/nlgcp_atmospheric_model/combinations.py:127-139 | A sample is usable if and only if both phases are there and neither indicator has its second bit set. |
| `CarrierArcs.ArcsStartWhere` | research/atmospheric_spatial_model/src/nlgcp_atmospheric_model/combinations.py:126-164 | One point for each usable sample, with its epoch and phase; arcs are numbered from 0, and a new one starts exactly where the sample before is unusable, the time steps by more than 1.5 steps and a microsecond, a flag changes or is odd, an event is flagged, or the phase moves by more than the threshold. |
| `CarrierArcs.DefaultStepGap` | research/atmospheric_spatial_model/src/nlgcp_atmospheric_model/combinations.py:124-154 | With no step given or stated, two samples alike but for their times are one arc if and only if the second comes no more than 45.000001 s later. |
| `CarrierArcs.PhaseIs` | research/atmospheric_spatial_model/src/nlgcp_atmospheric_model/combinations.py:85-140 | The phase is the difference of the carriers' cycles in metres at 1575.42 and 1227.60 MHz. |
| `CarrierArcs.SortedIsSorted` | research/atmospheric_spatial_model/src/nlgcp_atmospheric_model/combinations.py:192-197 | Sorting for the median is an ordered rearrangement of the values. |
| `CarrierArcs.MedianPlus` | research/atmospheric_spatial_model/src/nlgcp_atmospheric_model/combinations.py:192-197 | Adding a constant to all values adds it to their median. |
| `CarrierArcs.MedianIsMiddle` | research/atmospheric_spatial_model/src/nlgcp_atmospheric_model/combinations.py:192-197 | For an odd count the median is one of the values, with fewer than half below and fewer than half above; for an even count it is the mean of the two middle values, told by how many values are below and up to each. |
| `CarrierArcs.ArcDetrend` | research/atmospheric_spatial_model/src/nlgcp_atmospheric_model/combinations.py:174-180 | Grouping by arc and subtracting medians, row by row in input order. |
| `CarrierArcs.CyclesAreAShift` | research/atmospheric_spatial_model/src/nlgcp_atmospheric_model/combinations.py:85-139 | Unknown whole or fractional cycles on both carriers move the geometry-free phase by one constant. |
| `CarrierArcs.PairProxyIs` | research/atmospheric_spatial_model/src/nlgcp_atmospheric_model/ionosphere.py:93-109 | A pair of stations has a proxy exactly at the epochs both have, and it is 3600/2329 of the first's detrended value less the second's. |
| `CarrierArcs.AmbiguityInvariance` | research/atmospheric_spatial_model/src/nlgcp_atmospheric_model/combinations.py:120-188 | A constant that changes only at breaks forced by a gap, an LLI change or bit, or an epoch flag changes no arc id, no detrended value and no between-station difference. |
| `CarrierArcs.DetrendedMedianIsZero` | research/atmospheric_spatial_model/src/nlgcp_atmospheric_model/ionosphere.py:49-75 | Of the detrended values of an arc 0 is the middle: for an odd count 0 is one of them, with fewer than half negative and fewer than half positive; for an even count it is the mean of two middle ones. |
| `RinexBody.LineReader.NormalRecord` | research/gnss_qc/src/nlgcp_gnss_qc/rinex.py:66-91 | The reader's in-place consumption of one normal epoch follows the step specification. |
| `RinexBody.LineReader.Read` | research/gnss_qc/src/nlgcp_gnss_qc/rinex.py:56-92 | The body loop over the line iterator computes the specified result, errors included. |
| `RinexBody.BodySynchronisation` | research/gnss_qc/src/nlgcp_gnss_qc/rinex.py:56-92 | For any list of well-formed records, whatever text observation lines and event records hold, exactly their epochs and satellite lists are read and no error is raised (other than for a body with no normal epoch). `RinexBody.WrittenBodyIsRead` says it of epochs as written. |
| `RinexBody.ShownIsParsed` | apps/api/src/nlgcp_api/phase2_dataset.py:367-400 | A line that shows a year from 1980 to 2079, month, day, hour, minute, seconds and flag in their columns is parsed to exactly that epoch and flag when they are a day of the calendar and a time of day, and is no epoch line otherwise. |
| `RinexBody.WrittenBodyIsRead` | research/gnss_qc/src/nlgcp_gnss_qc/rinex.py:56-92 | Written down with their satellites twelve to a line and their observations five to a line, with event records and blank or unrecognised lines between, epochs and satellite lists are read back exactly. |
| `RinexBody.SlipsAreLockLosses` | research/gnss_qc/src/nlgcp_gnss_qc/rinex.py:305-314 | With rows of at most 80 columns, the slips counted for a satellite are its phase observations with a value and an indicator from 1 to 9 in the columns of their row. |
| `RinexBody.LongRowShifts` | research/gnss_qc/src/nlgcp_gnss_qc/rinex.py:305-314 | With a first row of 96 columns the sixth observation is read from that row, not from the second. |
| `RinexBody.ListedEpochIsWellFormed` | research/gnss_qc/src/nlgcp_gnss_qc/rinex.py:283-297 | An epoch line with twelve satellite fields to a line and ceil(n/12) list lines is such a record, for every count and any fields that are not blank, those without a system letter included. |
| `RinexBody.ListLinesListIds` | research/gnss_qc/src/nlgcp_gnss_qc/rinex.py:290-296 | The fields listed are read back trimmed and in capitals, in order. |
| `RinexBody.EventIsSkippedIff` | research/gnss_qc/src/nlgcp_gnss_qc/rinex.py:56-65 | A line with an event flag and a right count has its records passed over if and only if its year, month, day, hour, minute and seconds make a valid time; otherwise it alone is passed over, with a warning. |
| `RinexBody.UntimedEventDesynchronises` | research/gnss_qc/src/nlgcp_gnss_qc/rinex.py:56-65 | A comment event with blank time fields, whose one record looks like an epoch line, yields that epoch. |
| `RinexBody.SecondsAcceptedIff` | apps/api/src/nlgcp_api/phase2_dataset.py:367-400 | An otherwise good epoch line is accepted if and only if the fraction of its seconds is below 0.9999995. |
| `RinexBody.AlmostOneIsRefused` | apps/api/src/nlgcp_api/phase2_dataset.py:367-400 | An epoch line with seconds 59.9999999 is not recognised. |
| `EpochAccounting.Analyse` | research/gnss_qc/src/nlgcp_gnss_qc/rinex.py:195-236 | The gap loop and the counts at both ends compute the specified account. |
| `Numbers.RoundIs` | research/gnss_qc/src/nlgcp_gnss_qc/rinex.py:214-234 | Counts are rounded to the nearest whole number, of two equally near ones the even one. |
| `EpochAccounting.EndsAreCounted` | research/gnss_qc/src/nlgcp_gnss_qc/rinex.py:225-236 | Missing are the gaps' epochs and, rounded and never negative, the intervals before the first epoch and after the last; expected and unique are the rounded count of a day and the number of different epochs. |
| `EpochAccounting.MissingOnGrid` | research/gnss_qc/src/nlgcp_gnss_qc/rinex.py:208-236 | On the interval grid of one day, in any order: missing + 1 + forward steps = expected + backward steps. |
| `EpochAccounting.EpochsAreConserved` | research/gnss_qc/src/nlgcp_gnss_qc/rinex.py:195-236 | For any non-decreasing epochs on the grid, repeats allowed, unique + missing = expected. |
| `EpochAccounting.GapsAreHoles` | research/gnss_qc/src/nlgcp_gnss_qc/rinex.py:208-223 | Each reported gap lies between two observed grid points and reports exactly the unobserved points between them. |
| `EpochAccounting.JudgeSession` | apps/api/src/nlgcp_api/phase2_dataset.py:430-508 | The counting loops and the chain of tests give the specified verdict. |
| `EpochAccounting.IntervalIs` | apps/api/src/nlgcp_api/phase2_dataset.py:430-441 | The interval is the header's when positive, and none when it is not; without one it is the earliest of the most frequent positive steps, and none only when no step is positive. |
| `EpochAccounting.CompleteIffFullGrid` | apps/api/src/nlgcp_api/phase2_dataset.py:443-508 | When the interval divides the day, a session is complete if and only if its k-th epoch is midnight + k intervals for every k below 86400 / interval. |
| `EpochAccounting.CompleteIsGridIff` | apps/api/src/nlgcp_api/phase2_dataset.py:443-508 | For any interval, a session called complete is that grid if and only if the rounded number of intervals fills the day. |
| `EpochAccounting.CompleteWithoutGrid` | apps/api/src/nlgcp_api/phase2_dataset.py:474-508 | Two epochs that are called complete and are no grid. |
| `Interpolation.EstimateByDistance` | research/atmospheric_spatial_model/src/nlgcp_atmospheric_model/interpolation.py:197-214 | The weighting loop, which stops at a reference standing at the target, computes the specified estimate, which `Interpolation.InverseDistanceIs` identifies. |
| `Interpolation.Interpolate` | research/atmospheric_spatial_model/src/nlgcp_atmospheric_model/interpolation.py:154-236 | Which model predicts what, when nothing is predicted, the residual, and the refusal of a non-positive power for inverse distance only. What the predictions are is the next five rows. |
| `Interpolation.InverseDistanceIs` | research/atmospheric_spatial_model/src/nlgcp_atmospheric_model/interpolation.py:199-214 | With no reference at the target, the prediction times the sum of weights equals the weighted sum of values, each weight being the power of the least distance over that reference's. |
| `Interpolation.NearerCountsMore` | research/atmospheric_spatial_model/src/nlgcp_atmospheric_model/interpolation.py:199-214 | For a power function that increases, of two references with different values the prediction lies closer to the nearer one's. |
| `Interpolation.NearestPredicts` | research/atmospheric_spatial_model/src/nlgcp_atmospheric_model/interpolation.py:195-197 | Nearest predicts the value of a reference no other is nearer than, and of several the one whose station name comes first. |
| `Interpolation.PredictsWhen` | research/atmospheric_spatial_model/src/nlgcp_atmospheric_model/interpolation.py:185-217 | Zero always predicts 0; nearest needs one value, inverse distance two, planar three. |
| `Interpolation.UsableInOrder` | research/atmospheric_spatial_model/src/nlgcp_atmospheric_model/interpolation.py:178 | The references are taken in the order of station, then coordinates, then value. |
| `Interpolation.PredictionsStayInRange` | research/atmospheric_spatial_model/src/nlgcp_atmospheric_model/interpolation.py:178-214 | Nearest and inverse-distance predictions exist exactly when enough references have values, and lie between any bounds of those values. |
| `Interpolation.CoLocatedValueIsReturned` | research/atmospheric_spatial_model/src/nlgcp_atmospheric_model/interpolation.py:193-214 | With references at the target, both return the value of one of them, and the same one. |
| `Interpolation.RaisingRaises` | research/atmospheric_spatial_model/src/nlgcp_atmospheric_model/interpolation.py:178-214 | Raising every value by c raises both predictions by c. |
| `Interpolation.OrderDoesNotMatter` | research/atmospheric_spatial_model/src/nlgcp_atmospheric_model/interpolation.py:178-180 | No model's prediction depends on the order of the references. |
| `Interpolation.WeightsReproducePoint` | research/atmospheric_spatial_model/src/nlgcp_atmospheric_model/interpolation.py:90-107 | Outside the degenerate case barycentric weights sum to 1 and reproduce the point. |
| `Interpolation.WeightsAreUnique` | research/atmospheric_spatial_model/src/nlgcp_atmospheric_model/interpolation.py:90-107 | They are the only such weights, so inside means: a weighted mean of the corners with no weight below minus the tolerance. |
| `CrossValidation.LoocvFolds` | research/atmospheric_spatial_model/src/nlgcp_atmospheric_model/validation.py:37-54 | One fold for each station, in order, whose references are all other stations. |
| `CrossValidation.RunLoocv` | research/atmospheric_spatial_model/src/nlgcp_atmospheric_model/validation.py:57-172 | For any minimum number of references the nested loops refuse a fold datum with defaults, raise when a fold that counts has no reference for its datum, and otherwise report for each fold how many of its keys were evaluated and skipped and give every model a score on one common set of keys: exactly those that all models predicted. |
| `CrossValidation.RowCounts` | research/atmospheric_spatial_model/src/nlgcp_atmospheric_model/validation.py:98-142 | A fold with enough references counts each place of the epoch and satellite grid once: evaluated are the places that can be compared, skipped the rest; any other fold counts none. |
| `CrossValidation.ScoreIsOf` | research/atmospheric_spatial_model/src/nlgcp_atmospheric_model/validation.py:107-140 | A score is of an observed key: the prediction with power 2 from all other stations, each with its observed value, else its default, less the value at the datum, and the rest of the observed value. |
| `CrossValidation.NoLeakage` | research/atmospheric_spatial_model/src/nlgcp_atmospheric_model/validation.py:98-139 | With the observed keys fixed, changing values at a held-out station changes no prediction of its fold, and its residuals by exactly the change. |
| `CrossValidation.NoLeakageInComparison` | research/atmospheric_spatial_model/src/nlgcp_atmospheric_model/validation.py:140-146 | Nor which of its keys are compared. |
| `CrossValidation.DatumRemovesCommonConstant` | research/atmospheric_spatial_model/src/nlgcp_atmospheric_model/validation.py:88-139 | With a fold-local datum, adding any constant of the epoch and satellite to all stations leaves the score of a key as it is if and only if the held-out station is nameless, no station is, or the constant is zero; in the first two cases a missing score stays missing too. |
| `CrossValidation.NamelessDatumKeepsConstant` | research/atmospheric_spatial_model/src/nlgcp_atmospheric_model/validation.py:107-119 | Three sites, one without a name, for which one metre on all stations changes a residual. |
| `CrossValidation.ResidualsIgnoreCommonConstant` | research/atmospheric_spatial_model/src/nlgcp_atmospheric_model/validation.py:118-139 | Without a datum the same constant moves nearest and inverse-distance predictions and leaves their residuals. |
| `Selection.AssessNetwork` | research/hybrid_decision_engine/src/nlgcp_hybrid_decision/network.py:54-141 | The gate loop and the blocker list compute the specified assessment. |
| `Selection.AssessVrs` | research/hybrid_decision_engine/src/nlgcp_hybrid_decision/vrs.py:51-111 | So does the chain of gate tests. |
| `Selection.AssessSingleBase` | research/hybrid_decision_engine/src/nlgcp_hybrid_decision/single_base.py:50-150 | So do gating with its list of rejections, ranking and banding. |
| `Selection.NetworkGateIff` | research/hybrid_decision_engine/src/nlgcp_hybrid_decision/network.py:69-174 | With a known target the network passes if and only if no accepted non-target station lacks coordinates or navigation, enough references remain, some distance is known and no known one is over 500 km and over twice another, and the common interval is long enough or unknown for some reference. |
| `Selection.GeometryIs` | research/hybrid_decision_engine/src/nlgcp_hybrid_decision/network.py:144-179 | For three references or more: geometry passes if and only if some distance is known and no known one is over 500 km and over twice another, is extrapolation if and only if one is, and unassessed if and only if none is known. |
| `Selection.FarReferencesAreRefused` | research/hybrid_decision_engine/src/nlgcp_hybrid_decision/network.py:96-174 | Three admissible references at 100, 400 and 600 km are extrapolation, and no virtual reference station is chosen on them. |
| `Selection.SpreadIs` | research/hybrid_decision_engine/src/nlgcp_hybrid_decision/network.py:159-174 | The extent is the greatest distance known, and the target is contained unless the geometry is extrapolation. |
| `Selection.FanIs` | research/hybrid_decision_engine/src/nlgcp_hybrid_decision/network.py:182-189 | The fan is the triangle with the three smallest distances as sides, by Heron's formula, and nothing where they are no triangle. |
| `Selection.MeanStep` | research/hybrid_decision_engine/src/nlgcp_hybrid_decision/network.py:159-163 | One more known distance weighs in the mean as each of those before it. |
| `Selection.NetworkNeverReports` | research/hybrid_decision_engine/src/nlgcp_hybrid_decision/network.py:85-127 | Partial navigation coverage and the blocker for insufficient geometry never come up; the one warning is that enough references stand around an unknown target; how they stand is measured only for three or more around a known one. |
| `Selection.UnknownIntervalPasses` | research/hybrid_decision_engine/src/nlgcp_hybrid_decision/network.py:113-184 | Three references with unknown intervals are enough for a virtual reference station whatever common interval the policy asks for; with known intervals only if it asks for at most a day. |
| `Selection.VrsGateIff` | research/hybrid_decision_engine/src/nlgcp_hybrid_decision/vrs.py:61-111 | The gate opens if and only if network, geometry, both required approvals, leakage, provenance and both fingerprints pass. |
| `Selection.LeakageIsRead` | research/hybrid_decision_engine/src/nlgcp_hybrid_decision/vrs.py:114-124 | The leakage verdict is an explicit one, else that of the word given, blanks around it and letter case aside. |
| `Selection.VrsChosenIff` | research/hybrid_decision_engine/src/nlgcp_hybrid_decision/decision.py:160-318 | A virtual reference station is chosen if and only if the mode asks for it, the target is known and every gate passes. |
| `Selection.VrsHasReferences` | research/hybrid_decision_engine/src/nlgcp_hybrid_decision/decision.py:254-285 | Then at least three accepted non-target references with verified coordinates and navigation stand behind it, some distance is known, and no known one is over 500 km and over twice another. |
| `Selection.WeakeningNeverPromotes` | research/hybrid_decision_engine/src/nlgcp_hybrid_decision/decision.py:46-187 | Weaker upstream evidence never turns another decision into a virtual reference station; stronger evidence keeps one unchanged. |
| `Selection.LoweringAStation` | research/hybrid_decision_engine/src/nlgcp_hybrid_decision/network.py:73-111 | Where a virtual reference station is chosen after the verdict on an accepted station is lowered, it was chosen before if and only if that station is the target, or has coordinates and navigation and the distances stand as well with it. |
| `Selection.LoweringPromotes` | research/hybrid_decision_engine/src/nlgcp_hybrid_decision/network.py:73-83 | Four stations, one without navigation: accepting it blocks, a warning on it chooses a virtual reference station. |
| `Selection.PickDependsOnSurvivors` | research/hybrid_decision_engine/src/nlgcp_hybrid_decision/single_base.py:64-150 | The single-base pick depends only on which stations pass all gates. |
| `Selection.PickIgnoresOrderAndFailures` | research/hybrid_decision_engine/src/nlgcp_hybrid_decision/single_base.py:64-150 | Permuting the candidates or adding ones that fail a gate keeps the pick. |
| `Selection.NearestPickedIff` | research/hybrid_decision_engine/src/nlgcp_hybrid_decision/single_base.py:103-108 | With some known distance, the pick is the nearest gated station if and only if no gated station is at distance zero or all known distances are zero. |
| `Selection.ZeroDistanceLoses` | research/hybrid_decision_engine/src/nlgcp_hybrid_decision/single_base.py:103-108 | A gated station at distance 0 loses to one at distance 1. |
| `Selection.GatesPartition` | research/hybrid_decision_engine/src/nlgcp_hybrid_decision/single_base.py:64-97 | Every station but the target either passes all gates or is rejected, once, for the first it fails, in the order verdict, navigation, coordinates, interval. |
| `Selection.OnlyFailuresAreRejected` | research/hybrid_decision_engine/src/nlgcp_hybrid_decision/single_base.py:64-97 | And whatever is rejected fails that gate first. |
| `Selection.BandIs` | research/hybrid_decision_engine/src/nlgcp_hybrid_decision/single_base.py:110-150 | The band of an available base by the policy's limits on its distance, and the one warning for any but the preferred band. |
| `Selection.UnavailableIs` | research/hybrid_decision_engine/src/nlgcp_hybrid_decision/single_base.py:90-140 | No base is available because no station passed the gates, or because the first in rank stands beyond the maximum distance; it is then rejected and blocked by name. |
| `Selection.SingleBaseIsGated` | research/hybrid_decision_engine/src/nlgcp_hybrid_decision/decision.py:287-366 | A single-base decision names a gated candidate ranked first, within the maximum band when its distance is known, and falls back only where permitted. |
| `Selection.SingleBaseChosenIff` | research/hybrid_decision_engine/src/nlgcp_hybrid_decision/decision.py:189-366 | A single base is chosen if and only if one is reachable and it is either asked for outright or a permitted fallback from a closed gate. |
| `Selection.DecisionIsRated` | research/hybrid_decision_engine/src/nlgcp_hybrid_decision/decision.py:46-366 | Status and integrity of every decision: nothing chosen is UNUSABLE, and BLOCKED or a diagnosis; a choice is OK for a virtual station or a base within the preferred distance, else DEGRADED, and INTACT if and only if it is OK without a warning of discovery or, on a fallback, a missing fingerprint, else LIMITED. |
| `Archive.CopyMarkIff` | apps/api/src/nlgcp_api/phase2_dataset.py:53-64 | Removing copy marks changes a name if and only if it has one. |
| `Archive.MarkFreeIff` | apps/api/src/nlgcp_api/phase2_dataset.py:53-64 | What is left still has a copy mark if and only if a bracketed number stood directly before one. |
| `Archive.StackedMarkStays` | apps/api/src/nlgcp_api/phase2_dataset.py:53-64 | The names "x (1) (2).z" and "x (1).z" have different canonical names. |
| `Archive.RetainedIsFirst` | apps/api/src/nlgcp_api/phase2_dataset.py:236-242 | The retained candidate is the first of the stable order: unmarked names, then smaller source paths. |
| `Archive.UnmarkedIsRetained` | apps/api/src/nlgcp_api/phase2_dataset.py:236-242 | A marked name is retained only when every candidate is marked, and of equally marked ones the source path that comes first. |
| `Archive.PathOf` | apps/api/src/nlgcp_api/phase2_dataset.py:53-64 | The parts of a canonical path in their order: the digits of the year, the station, the day in three digits, the kind and the name without copy marks. |
| `Archive.FileStore.CopyVerifiedImmutable` | apps/api/src/nlgcp_api/phase2_dataset.py:274-294 | An existing target is kept if it has the source's checksum and refused otherwise; a new one is written only with verified content. |
| `Archive.FileStore.BuildCanonicalArchive` | apps/api/src/nlgcp_api/phase2_dataset.py:213-271 | The loop over sorted canonical paths ends with the files and the result of the build specification, also when it stops at an error. |
| `Archive.BuildNeverAlters` | apps/api/src/nlgcp_api/phase2_dataset.py:213-294 | A build, even a failing one, leaves every existing file as it was; whatever is new is a verified copy at a canonical path. |
| `Archive.EveryFileAccountedFor` | apps/api/src/nlgcp_api/phase2_dataset.py:228-271 | After a successful build records and excluded duplicates together are exactly the delivered files, counted with multiplicity. |
| `Archive.TargetsAreDistinct` | apps/api/src/nlgcp_api/phase2_dataset.py:223-228 | Each canonical path is visited once and has a candidate. |
| `Archive.OneRecordPerPath` | apps/api/src/nlgcp_api/phase2_dataset.py:228-258 | One record for each canonical path in order; all its candidates share its checksum, and so does the archived file. |
| `Archive.BuildingTwiceChangesNothing` | apps/api/src/nlgcp_api/phase2_dataset.py:222-294 | A second build reports the same and changes nothing, even with the delivery gone. |
| `Archive.SucceedsIff` | apps/api/src/nlgcp_api/phase2_dataset.py:228-294 | A build succeeds if and only if files for one path never differ in checksum and every path already holds that checksum or can be filled from its retained file. |
| `Windows.NetworkOverlap` | research/gnss_qc/src/nlgcp_gnss_qc/aggregate.py:196-245 | The row of each day of the year, with its files, warned and accepted stations and navigation, and, from the rows, the windows. |
| `Windows.RowListsAccepted` | research/gnss_qc/src/nlgcp_gnss_qc/aggregate.py:199-219 | A row lists in order exactly the stations accepted on its day, one entry for each accepted session. |
| `Windows.RowCounts` | research/gnss_qc/src/nlgcp_gnss_qc/aggregate.py:199-219 | Files, warned stations and navigation of a row are the numbers of that day's sessions, of those with a warning verdict, and of those with navigation. |
| `Windows.ExtractWindows` | research/gnss_qc/src/nlgcp_gnss_qc/aggregate.py:222-245 | For minimum counts 1 to 8 the reported windows are exactly the maximal runs of qualifying days, each once, sorted by minimum, then longest, then earliest. |
| `Windows.ReportedIff` | research/gnss_qc/src/nlgcp_gnss_qc/aggregate.py:222-245 | A window is reported if and only if every day of it has its minimum, from 1 to 8, and the days before and after it do not. |
| `Windows.RunsAreApart` | research/gnss_qc/src/nlgcp_gnss_qc/aggregate.py:222-241 | Two runs of one minimum are separated by at least one day. |
| `Windows.RunsNest` | research/gnss_qc/src/nlgcp_gnss_qc/aggregate.py:222-241 | Every run for more stations lies inside one for fewer. |
| `Windows.WindowsPartitionTheDays` | research/gnss_qc/src/nlgcp_gnss_qc/aggregate.py:222-241 | The windows of a minimum cover exactly its qualifying days and their durations add up to the number of those days. |

## Left out

- Sockets, TLS, threads, signals and wall clocks, apart from what the script of a run says about them; time stamps as text.
- SHA-256, provenance and fingerprint strings, JSON and CSV writing, reason codes and texts of decisions.
- Rotation policy and the capture-limit branch, which a capture as started here cannot reach, and `StreamMetrics`, whose counts are rebuilt from the same events and lost on an authorization failure; the claims are about the writer and the queue.
- Drop policies inside a run: the client always blocks. The queue itself models all policies.
- The connection-local sequence number of `ArrivalRecorder`, overwritten by the global one before use.
- Splitting of a status line and of header lines: the model starts from protocol and code.
- `BitWriter.write_bytes`.
- Floating-point rounding, trigonometry and the least-squares plane: the planar model is any function of the sorted references, and nothing is claimed of its value beyond independence from their order and, with a fold datum, from a common constant.
- Extrapolation flags, model parameters and reason texts of a prediction; metrics, correlations and the ranking of models after cross-validation.
- Non-finite numbers and unknown model names, which the types here rule out; the source raises on both.
- Satellite and constellation statistics of a RINEX analysis, its header parsing, and white space beyond Latin-1.
- Session warnings other than those that decide a verdict; station health, equipment history and calendar dates of daily rows.
- Selection.AssessNetwork: the fan is measured by the square of its area, because no decision depends on the root; the references are kept as candidates in delivery order beside their sorted names.
- Discovery of delivered files; temporary files, permissions and directory creation while copying. A copy is one step that happens or does not.
- `read_rinex2_observations`, RTKLIB and conversion pipelines, generation and mountpoint admission, source tables, reports, web applications and migrations: flat checklists and glue.
- RinexBody.SlipsAreLockLosses: rows of at most 80 columns, the width the format allows; in longer ones the columns of later observations are shifted (`LongRowShifts`), and which values are then counted is only what the counting loop says.
