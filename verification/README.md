# Loom client protocol model

A Dafny model of the two I/O-free layers of the Loom client, `proto/` and `core/`, with proofs of what they are for.

**Receive pipeline.** `Datagram` is the 12-byte header codec and `DatagramRules` its layout and validation byte by
byte. `Reassembly` is the two-frame window with decode gating
and the request limit; `VideoReceiver` puts payload storage, assembly, the bounded hand-off to the decode thread, and
the second request limit on top. Each has a `State` datatype whose functions say what one step does, and a class
(`Reassembler`, `VideoReceiver`) with the original's fields and loops whose methods are proved to take exactly that
step. A feed consists of two atomic steps, `FeedBegin` (up to the release of the first lock) and `FeedEnd`, so that the
decode thread's `Pop` can fall between them. `ReassemblyRules` says exactly what a push does, and `ReceiverIntake`
which bytes are taken in, how they are counted and what a body becomes. `ReassemblySafety`, `ReceiverSafety`,
`ReceiverRecovery` and `ReceiverReports` prove properties of all runs; `ReceiverStore` and `ReceiverChain` say exactly when store and
bookkeeping agree, which frames are assembled, and when the decoder's reference chain holds; `ReceiverHost` and
`ReceiverRoundTrip` start from the datagrams a host sends; `ReceiverLimits` holds runs in which an assumption fails.

**Canonical CBOR** (section 4.2.1 of RFC 8949, floats per section 4.2.2). `Floats` gives bit patterns exact integer
magnitudes; `FloatBits` has the conversions and the choice of the shortest form; `Cbor` has the value tree, the
encoding and the decoding; `CborCodec` is the code that appends to a buffer and advances a position. `CborRoundTrip`,
`CborCanonical` and `CborShape` prove round trip, minimality, key order, and that an encoding determines its value up
to the order of map entries. `CborGrammar` defines the legal encodings on their own and proves that the decoder accepts
exactly these and that the encoder writes the shortest of them.

**Control stream and session.** `Control` is the length-prefixed envelope with key filtering, `ControlKeys` says which
keys of which type survive and which frames are violations, `ClockSync` the clock
filter, `Session` the framing loop and handshake automaton. `SessionDuties` gives each input's effect in the protocol's own
numbers: when a ping or viewport is due, which message moves the handshake on, and what each frame says. `SessionRuns` proves that the cutting of the stream does
not matter and that the queued actions follow the handshake; `SessionHistory` that every CONFIG is answered with its
own generation and that the clock estimate is the filter's choice among the pongs received; `SessionFrames` that each
side reads what the other wrote, up to a whole handshake.

The following are results rather than assumptions.

* The decoder's reference chain is unbroken after every step of a run exactly when no dependent unit was let through
  while a delivered frame was missing, that is, lost since the last keyframe let through (`ChainedIff`, for every run and
  any datagrams). A feed loses the frame it delivers exactly when the frame is not assembled or has at most the
  eight-byte timestamp for a body (`LosesIff`). So a run that loses none has an unbroken chain (`DecoderChain`).
* Payload store and reassembler agree on the fragments of each frame in the window throughout a run exactly when no
  frame in the window is ever more than four behind the arriving one (`AgreementIffCompact`). Over such runs a
  completed frame is assembled exactly when the fragment that completed it repeats the count of the frame's first
  fragment, because every fragment overwrites `pending.count`; what the fragments in between said does not matter
  (`CompletedRun`). The assembled frame has all its parts exactly when no fragment counted lay beyond that count.
* Each of the three assumptions can fail on datagrams the receiver accepts, and the chain then breaks: `CountRun`,
  `PruneRun` and `RuntRun` are such runs from the initial state.
* A host that cuts each frame once, with bodies longer than a timestamp, over a network that may lose and repeat
  anything but delivers no piece after a piece of a frame more than four newer, loses no delivered frame: the decoder
  sees its frames exactly, in unbroken chains (`HostChain`).
* The receiver's request limiter uses -1 for "never asked", so it forgets a request made at a negative time. It keeps
  its distance after a request exactly when that request's time is not negative (`LimiterArmed`), and
  `NegativeClockRun` is a run in which it does not.
* A second `Connected` while the session is negotiating or streaming sends a second HELLO. The action log follows the
  handshake exactly when that does not happen (`HandshakeFollowed`).
* `encode_frame` does not enforce the frame limit. A HELLO arrives exactly when its payload is within it
  (`HelloArrivesIff`).
* The comment at `proto/include/loom/proto/reassembly.hpp:17-19` describes an outstanding-request flag that a newer
  keyframe clears. The code has none: it asks again every 250 ms for as long as frames are discarded. The model follows
  the code (`GapAnswered`, `GapNeverQuiet`).

History variables (`assembled`, `popped`, `stale`, `requests`, `log`, `history` and the `frameSeq` of an access unit)
record what happened; no branch reads them.

## Model

| member | source | states |
|---|---|---|
| Datagram.MakeHeader | proto/src/datagram.cpp:5-9 | a header made for an index below its count is one the decoder's rules accept |
| Datagram.FlagsByte | proto/src/datagram.cpp:11-16 | the flag byte of a header |
| Datagram.EncodeHeader | proto/src/datagram.cpp:18-33 | the filled buffer is the big-endian layout of the header |
| Datagram.EncodeDatagram | proto/src/datagram.cpp:35-43 | the header's bytes and then the payload |
| Datagram.DecodeWithStreams | proto/src/datagram.cpp:73-105 | the specified result for every byte string and stream list, the first failing rule naming the reason |
| Datagram.DecodeEncode | proto/src/datagram.cpp:18-43 | every well-formed header with a payload of at most 1338 bytes on an accepted stream decodes to itself, payload intact |
| Datagram.EncodeDecode | proto/src/datagram.cpp:73-105 | re-encoding whatever was accepted gives the same bytes with the six reserved flag bits cleared |
| Datagram.DecodeInjective | proto/src/datagram.cpp:73-105 | two accepted datagrams with equal results and payloads differ only in reserved flag bits |
| DatagramRules.DecodeByRules | proto/src/datagram.cpp:73-105 | for every byte string the first of seven rules that fails names the reason; if none fails the header says what the bytes say at each position |
| DatagramRules.AcceptedIff | proto/src/datagram.cpp:73-105 | accepted if and only if all seven rules pass |
| DatagramRules.Wire | proto/src/datagram.cpp:18-43 | the value of each field by its position in the encoded bytes |
| DatagramRules.Made | proto/src/datagram.cpp:5-9 | a made header carries its arguments and marks exactly the last fragment |
| Reassembly.MinOf | proto/src/reassembly.cpp:19 | the least key of the window |
| Reassembly.Reassembler.constructor | proto/include/loom/proto/reassembly.hpp:69-74 | the empty state |
| Reassembly.Reassembler.Push | proto/src/reassembly.cpp:7-60 | the whole new state: stale, evicting, duplicate, partial and completing fragments |
| Reassembly.Reassembler.Complete | proto/src/reassembly.cpp:36-59 | completion retires the frame and all it overtook, then gates it |
| Reassembly.Reassembler.Cleanup | proto/src/reassembly.cpp:41-49 | the erase-while-iterating loop removes exactly the frames at or below the newest complete one and counts each |
| Reassembly.Reassembler.DeliverFrame | proto/src/reassembly.cpp:62-65 | appends the delivery and remembers its seq |
| Reassembly.Reassembler.RequestIdr | proto/src/reassembly.cpp:67-76 | one request unless the last is less than 250 ms old |
| ReassemblySafety.PushInv | proto/src/reassembly.cpp:7-60 | a push keeps the window at two live, still incomplete frames and the event log sound |
| ReassemblySafety.EventLog | proto/src/reassembly.cpp:36-76 | over every run, for any clock: deliveries ascend, a dependent one directly follows its predecessor, every request names the latest earlier delivery, requests are 250 ms apart |
| ReassemblySafety.LogEntry | proto/src/reassembly.cpp:36-76 | any two deliveries of a log ascend, any two requests are 250 ms apart |
| ReassemblySafety.LogShape | proto/src/reassembly.cpp:51-76 | what each delivery and each request says relative to the log before it |
| ReassemblySafety.AdmitOrStale | proto/src/reassembly.cpp:10-30 | a fragment of a dead frame only counts as stale; any other is admitted and recorded |
| ReassemblySafety.PushSettles | proto/src/reassembly.cpp:7-49 | how the set of held frames moves: kept, evicting the oldest, or cut at the completed frame |
| ReassemblySafety.DeadForever | proto/src/reassembly.cpp:10-49 | frames that leave the window, and frames already dead, stay dead |
| ReassemblySafety.PushedOrDead | proto/src/reassembly.cpp:10-49 | after a push the fragment's frame is in the window or dead |
| ReassemblySafety.OpenedOnce | proto/src/reassembly.cpp:10-49 | over every run each frame is opened at most once and is held or dead ever after |
| ReassemblySafety.Conservation | proto/src/reassembly.cpp:10-60 | opened = delivered + discarded + dropped + in flight, at most two in flight, each missing a fragment |
| ReassemblySafety.GapAnswered | proto/src/reassembly.cpp:54-76 | right after a gap discard the newest request is less than 250 ms old |
| ReassemblySafety.PushReports | proto/src/reassembly.cpp:34-76 | the one event a push may append: which, when, and with what content |
| ReassemblySafety.PushEntries | proto/src/reassembly.cpp:32-49 | a push changes no window entry but its own frame's |
| ReassemblyRules.PushExactly | proto/src/reassembly.cpp:7-76 | in every reachable state a push counts as stale, or only records, or finishes its frame; each with its exact effect on window, counters, events and request time |
| ReassemblyRules.StaleCounted | proto/src/reassembly.cpp:10-27 | over every run the stale fragments counted are those whose frame was dead |
| ReassemblyRules.DeliveredIff | proto/src/reassembly.cpp:51-59 | over every run a completed frame is delivered if and only if it began as a keyframe or follows the newest delivery; otherwise it is counted as a gap |
| ReassemblyRules.RoomForTwo | proto/src/reassembly.cpp:17-30 | with at most one frame held a new one costs no other |
| VideoReceiver.Accept | core/src/video_receiver.cpp:34-45 | an accepted datagram has a full header with its index below its count |
| VideoReceiver.OneEvent | core/src/video_receiver.cpp:56-66 | a push adds at most one event, and a delivery is of the fragment's own frame |
| VideoReceiver.FeedSequential | core/src/video_receiver.cpp:34-73 | with no decode-thread step in between, the two atomic steps are the sequential feed |
| VideoReceiver.VideoReceiver.constructor | core/src/video_receiver.cpp:29-30 | the initial state |
| VideoReceiver.VideoReceiver.FeedDatagram | core/src/video_receiver.cpp:34-73 | the whole new state after any datagram |
| VideoReceiver.VideoReceiver.Record | core/src/video_receiver.cpp:46-56 | counters, stashed payload, and the reassembler's push |
| VideoReceiver.VideoReceiver.HandleEvents | core/src/video_receiver.cpp:58-66 | the loop handles the event a push left, and leaves none |
| VideoReceiver.VideoReceiver.HandleEvent | core/src/video_receiver.cpp:60-65 | a delivery goes through both halves of deliver_frame, a request to the limiter |
| VideoReceiver.VideoReceiver.TidyUp | core/src/video_receiver.cpp:67-72 | the drop total and the pruned store |
| VideoReceiver.VideoReceiver.BeginDeliver | core/src/video_receiver.cpp:75-109 | assembly, the two silent returns, and the overrun drop |
| VideoReceiver.VideoReceiver.DropStale | core/src/video_receiver.cpp:96-109 | a queue at its bound goes stale as a whole and a keyframe is awaited |
| VideoReceiver.VideoReceiver.JoinParts | core/src/video_receiver.cpp:80-84 | the parts in index order |
| VideoReceiver.VideoReceiver.ReadCaptureTs | core/src/video_receiver.cpp:89-93 | the shift loop reads the first eight bytes as a big-endian number |
| VideoReceiver.VideoReceiver.FinishDeliver | core/src/video_receiver.cpp:111-126 | the awaiting-keyframe gate and the push |
| VideoReceiver.VideoReceiver.Reject | core/src/video_receiver.cpp:113-117 | a dependent unit goes stale and a request is made |
| VideoReceiver.VideoReceiver.PassOn | core/src/video_receiver.cpp:118-125 | the flag is cleared, the seq remembered, the unit counted and queued |
| VideoReceiver.VideoReceiver.RequestIdr | core/src/video_receiver.cpp:133-141 | at most one callback, limited to one per 250 ms |
| VideoReceiver.VideoReceiver.Prune | core/src/video_receiver.cpp:143-152 | the loop keeps exactly the payloads not more than four frames behind |
| VideoReceiver.VideoReceiver.PopAu | core/src/video_receiver.cpp:154-163 | the oldest queued unit, or none once stopped and drained |
| VideoReceiver.VideoReceiver.Stop | core/src/video_receiver.cpp:165-171 | sets the stop flag and touches nothing else |
| VideoReceiver.VideoReceiver.Resume | core/src/video_receiver.cpp:173-176 | clears the stop flag and touches nothing else |
| ReceiverIntake.AcceptIsOwn | core/src/video_receiver.cpp:35-45 | taken in are exactly the valid datagrams whose stream bytes are this stream's, with the header their bytes say |
| ReceiverIntake.FeedCounts | core/src/video_receiver.cpp:34-47 | any other datagram changes nothing at all; one taken in is counted with all its bytes |
| ReceiverIntake.ForeignIgnored | core/src/video_receiver.cpp:43-45 | a datagram whose stream bytes are another's changes nothing |
| ReceiverIntake.EncodedCountsIff | core/src/video_receiver.cpp:38-47 | of the encoder's datagrams exactly those for this stream are counted |
| ReceiverIntake.DatagramsCounted | core/src/video_receiver.cpp:46-47 | over every interleaving the counters are the number of this stream's datagrams and the sum of their lengths |
| ReceiverIntake.ForeignLeftOut | core/src/video_receiver.cpp:38-45 | over every interleaving, leaving out foreign and malformed datagrams leads to the very same state |
| ReceiverIntake.DropsTotalled | core/src/video_receiver.cpp:67-71 | over every interleaving, between feeds, frames_dropped is incomplete drops, gap discards, stale fragments and units stale at the decoder |
| ReceiverIntake.SilentWithoutCallback | core/src/video_receiver.cpp:134 | a receiver without a callback makes none, over every interleaving |
| ReceiverIntake.UnitRead | core/src/video_receiver.cpp:89-94 | a body of eight bytes of big-endian time and then data is read as that time and that data |
| ReceiverIntake.PicturesArrive | core/src/video_receiver.cpp:34-127 | over every orderly run the i-th unit has the capture time, data, kind and number of the i-th picture sent |
| ReceiverIntake.NewestCounts | core/src/video_receiver.cpp:49-53 | of repeated fragments the newest payload and count stand, and no other payload is touched |
| ReceiverSafety.FeedBeginCases | core/src/video_receiver.cpp:34-109 | a feed assembles nothing, or exactly one unit newer than all before it |
| ReceiverSafety.FeedEndCases | core/src/video_receiver.cpp:111-126 | the unit in hand is rejected as stale or appended, never both and never neither |
| ReceiverSafety.HandoffSafety | core/src/video_receiver.cpp:96-126 | over every interleaving with pops: at most two units queued, every assembled unit has exactly one fate, and order is kept |
| ReceiverRecovery.RequestsSpaced | core/src/video_receiver.cpp:129-141 | any two callbacks from either source are at least 250 ms apart |
| ReceiverRecovery.LimiterArmed | core/src/video_receiver.cpp:133-141 | the limiter keeps every later callback at its distance if and only if the last one's time is not negative |
| ReceiverRecovery.GapNeverQuiet | core/src/video_receiver.cpp:56-66 | a gap discard at t finds a callback later than t - 500 |
| ReceiverRecovery.AwaitingNeverQuiet | core/src/video_receiver.cpp:113-117 | a unit rejected at t for want of a keyframe finds a callback later than t - 250 |
| ReceiverReports.RunTracks | core/src/video_receiver.cpp:118-125 | frames_received counts the units handed over and last_good_seq is the newest of them |
| ReceiverReports.CallbacksReport | core/src/video_receiver.cpp:60-64 | a step makes at most one callback, carrying the newest delivered frame (gap) or the newest unit handed over (overrun) |
| ReceiverStore.StashAgrees | core/src/video_receiver.cpp:49-56 | whatever the fragment, stashing and pushing keep the stored payloads those of the fragments counted |
| ReceiverStore.PruneAgreesIffCompact | core/src/video_receiver.cpp:143-152 | from agreement, pruning keeps it if and only if no frame in the window is more than four behind |
| ReceiverStore.AgreementIffCompact | core/src/video_receiver.cpp:49-73 | over every run, with any fragments: agreement after every step if and only if the window stays compact |
| ReceiverStore.AssembledIffCount | core/src/video_receiver.cpp:76-79 | from agreement on the frame, it is assembled if and only if the completing fragment repeats the first one's count, whatever the others said |
| ReceiverStore.WholeIffInRange | core/src/video_receiver.cpp:80-84 | an assembled frame has parts 0 to count - 1 if and only if no fragment counted lay beyond the count |
| ReceiverStore.CompletedRun | core/src/video_receiver.cpp:49-84 | both, over every compact run |
| ReceiverStore.CompleteIsWhole | core/src/video_receiver.cpp:76-84 | over every compact run with constant counts a completing fragment finds exactly the parts 0 to count - 1, so the "shouldn't happen" return is not taken |
| ReceiverChain.ChainedIff | core/src/video_receiver.cpp:75-127 | over every interleaving, with any datagrams and both drop policies: the chain is unbroken after every step if and only if no dependent unit was let through while a delivered frame was missing |
| ReceiverChain.DecoderChain | core/src/video_receiver.cpp:75-127 | over every interleaving that loses no delivered frame: units popped or queued ascend, each is a keyframe or directly follows its predecessor, the first is a keyframe |
| ReceiverChain.SuccessorChains | core/src/video_receiver.cpp:96-126 | from any reachable state a dependent unit handed over continues the chain if and only if a keyframe is awaited or the decoder's newest unit is the newest delivered |
| ReceiverChain.LossBehind | core/src/video_receiver.cpp:75-88 | from any reachable state, losing a delivered frame leaves the decoder behind |
| ReceiverChain.LossBreaks | core/src/video_receiver.cpp:75-127 | from any reachable state, after a loss the next dependent unit handed over is the lost frame's successor and breaks the chain unless a keyframe is awaited |
| ReceiverChain.LosesIff | core/src/video_receiver.cpp:76-88 | in every reachable state a feed loses a frame if and only if it delivers one that is not assembled or has at most a timestamp for a body |
| ReceiverChain.LossIffUnsound | core/src/video_receiver.cpp:49-88 | over every compact run a frame is lost if and only if one is completed by a fragment that contradicts its first one's count, or has no body |
| ReceiverHost.CutFromHost | proto/src/datagram.cpp:35-43 | every datagram cut from one of a host's frames is one the theorems below speak of |
| ReceiverHost.BodyFrom | core/src/video_receiver.cpp:80-84 | whatever pieces arrived, a frame that can be assembled has its host's body |
| ReceiverHost.UnitsAreTheHosts | core/src/video_receiver.cpp:34-127 | whatever is lost, repeated or reordered, every unit that reaches the decoder is byte for byte one of the host's |
| ReceiverHost.HostLosesNone | core/src/video_receiver.cpp:34-88 | with no piece after a piece of a frame more than four newer, no delivered frame is lost |
| ReceiverHost.HostChain | core/src/video_receiver.cpp:34-127 | under those conditions on the datagrams alone the decoder sees exact host frames in unbroken chains |
| ReceiverRoundTrip.PushInOrder | proto/src/reassembly.cpp:7-60 | a piece of the frame in progress is recorded, or completes and delivers it |
| ReceiverRoundTrip.AcceptCut | core/src/video_receiver.cpp:34-45 | the receiver accepts the encoder's datagrams with header and payload intact |
| ReceiverRoundTrip.JoinIsConcat | core/src/video_receiver.cpp:80-84 | joining the parts of a frame gives back the body that was cut |
| ReceiverRoundTrip.FeedOld | core/src/video_receiver.cpp:34-73 | a repeated piece of a complete frame changes nothing the decoder or the window can see |
| ReceiverRoundTrip.RoundTrip | core/src/video_receiver.cpp:34-127 | end to end from the encoder: frames fed one by one, pieces in any order with any repetition, come out as exactly their bodies with big-endian capture times, in order, with no drop and no request |
| ReceiverRoundTrip.AllArrive | core/src/video_receiver.cpp:34-127 | once every piece of every frame has been sent, every frame has arrived |
| ReceiverRoundTrip.OrderlyLosesNone | core/src/video_receiver.cpp:34-127 | every such run is one that loses no delivered frame |
| ReceiverLimits.RuntRun | core/src/video_receiver.cpp:86-88 | a run from the start: a keyframe without a body, then its successor, and the chain is broken |
| ReceiverLimits.CountRun | core/src/video_receiver.cpp:51 | a run from the start: fragments of a keyframe that say 2 and 3, then its successor, and the chain is broken |
| ReceiverLimits.PruneRun | core/src/video_receiver.cpp:143-152 | a run from the start: half a keyframe, a fragment five frames newer, the other half, then the successor, and the chain is broken |
| ReceiverLimits.NegativeClockRun | core/src/video_receiver.cpp:133-141 | a run from the start at a negative time with two callbacks as close together as its last two frames |
| Floats.WidenExact | proto/src/cbor.cpp:57-82 | widening keeps the exact value, subnormals and zero included |
| Floats.MagMono | proto/src/cbor.cpp:84-108 | magnitudes are ordered as exponent and mantissa fields are, in any format |
| Floats.HalfRoundsNearest | proto/src/cbor.cpp:84-108 | for every finite single no half is nearer than the result, and ties are even, carry into the exponent and infinity included (section 4.3.1 of IEEE 754-2019) |
| Floats.HalfOfExact | proto/src/cbor.cpp:84-108 | a single with exactly a half's value rounds to that half |
| FloatBits.HalfToSingleExact | proto/src/cbor.cpp:57-82 | f16_to_f32 keeps sign, exact value and class |
| FloatBits.SingleToHalfNearest | proto/src/cbor.cpp:84-108 | f32_to_f16 keeps the sign and rounds every finite single to the nearest half, ties to even |
| FloatBits.HalfRoundTrip | proto/src/cbor.cpp:54-56 | every half that is a number survives widening and rounding back |
| FloatBits.HalfFormIff | proto/src/cbor.cpp:124-125 | the test f16_to_f32(f32_to_f16(f)) == f succeeds exactly when some half has the value |
| FloatBits.NarrowIff | proto/src/cbor.cpp:122-123 | the cast-and-compare test finds a single exactly when one widens to the double |
| FloatBits.SingleToDoubleExact | proto/src/cbor.cpp:274-278 | widening a single keeps sign and exact value |
| FloatBits.NaNForm | proto/src/cbor.cpp:117-120 | every NaN is written f9 7e 00 |
| FloatBits.NonFiniteToHalf | proto/src/cbor.cpp:90-91 | infinities and NaNs become the half infinity and quiet NaN of the same sign |
| FloatBits.ShortestForm | proto/src/cbor.cpp:110-140 | two bytes exactly when a half has the value, four exactly when only a single does, and then those bits |
| FloatBits.NormalizeHalf | proto/src/cbor.cpp:66-71 | the normalisation loop, its exponent wrapping below zero |
| FloatBits.SubnormalToSingle | proto/src/cbor.cpp:62-73 | the wrapped exponent comes back right when the bias is added |
| FloatBits.HalfToSingle | proto/src/cbor.cpp:57-82 | the bit operations compute the specified single |
| FloatBits.ShiftRounded | proto/src/cbor.cpp:96-102 | shift, remainder and midpoint round to nearest even |
| FloatBits.RoundedNormal | proto/src/cbor.cpp:104-107 | the normal branch rounds to nearest even, carry into the exponent included |
| FloatBits.FiniteToHalf | proto/src/cbor.cpp:92-107 | the branches on the exponent compute the specified half |
| FloatBits.SingleToHalf | proto/src/cbor.cpp:84-108 | the bit operations compute the specified half |
| Cbor.ReadHeadOf | proto/src/cbor.cpp:31-52 | a head in any of the five widths is read back, whatever follows it |
| Cbor.DecodeItem | proto/src/cbor.cpp:213-289 | every success consumes at least one byte, so decoding ends although counts reach 2^64 - 1 |
| Cbor.DecodeItems | proto/src/cbor.cpp:249-257 | a success yields as many items as announced and consumes at least that many bytes |
| Cbor.DecodeEntries | proto/src/cbor.cpp:258-268 | the same for map entries |
| CborGrammar.DecodesIff | proto/src/cbor.cpp:213-289 | the decoder returns v and leaves rest if and only if the bytes are a legal encoding of v, in any widths, followed by rest |
| CborGrammar.ReadsBack | proto/src/cbor.cpp:213-289 | every legal encoding is accepted and means what it says, whatever follows |
| CborGrammar.EncodeIsLegal | proto/src/cbor.cpp:142-194 | what the encoder writes is a legal encoding of the value |
| CborGrammar.EncodeIsShortest | proto/src/cbor.cpp:142-194 | no legal encoding of a value is shorter than the encoder's |
| Base.LessIff | proto/src/cbor.cpp:184-185 | keys are compared bytewise: the first difference decides, and a prefix comes first |
| CborRoundTrip.EncodeCanon | proto/src/cbor.cpp:142-194 | sorting a value's maps and merging its NaNs does not change its encoding |
| CborRoundTrip.RoundTrip | proto/src/cbor.cpp:142-289 | decoding at any encoding, with any prefix and suffix, gives the value with maps sorted and NaNs canonical and stops at its end |
| CborRoundTrip.DecodeBack | proto/src/cbor.cpp:142-289 | the same from the front of a buffer |
| CborRoundTrip.IntFaithful | proto/src/cbor.cpp:150-157 | every 64-bit integer, both extremes included, comes back |
| CborRoundTrip.FloatFaithful | proto/src/cbor.cpp:112-140 | every double, and the canonical NaN, comes back bit for bit |
| CborRoundTrip.SortIdempotent | proto/src/cbor.cpp:184-185 | sorting what is in key order changes nothing |
| CborCanonical.DecodeEconomical | proto/src/cbor.cpp:204-289 | on any bytes the decoded tree has no more nodes than bytes were consumed, and its canonical encoding is no longer than they |
| CborCanonical.HeadsOrdered | proto/src/cbor.cpp:31-52 | heads of one major type are ordered bytewise as their arguments are, across all widths |
| CborCanonical.KeysAscend | proto/src/cbor.cpp:184-190 | distinct keys are written strictly ascending bytewise |
| CborCanonical.SortPermutes | proto/src/cbor.cpp:184-185 | sorting neither loses nor invents an entry |
| CborCanonical.StrictUnique | proto/src/cbor.cpp:184-185 | the sorted order of distinct keys is unique, so it does not depend on the sorting algorithm |
| CborCanonical.AnySort | proto/src/cbor.cpp:184-185 | with distinct keys every ordered permutation of the items, whatever sorted them, is the one written |
| CborShape.EncodeIffShape | proto/src/cbor.cpp:179-191 | with distinct keys two values encode alike if and only if they are equal up to map order at every depth |
| CborShape.EntryOrderIrrelevant | proto/src/cbor.cpp:179-191 | permuting a map's entries leaves the encoding unchanged |
| CborShape.CanonShape | proto/src/cbor.cpp:142-194 | what decoding returns is what was encoded up to map order |
| Buffers.Buffer.PushBE | proto/src/cbor.cpp:33-36 | the shift loop appends the big-endian bytes |
| CborCodec.PutHead | proto/src/cbor.cpp:31-52 | appends the shortest head |
| CborCodec.EncodeFloat | proto/src/cbor.cpp:112-140 | appends the preferred form of the double |
| CborCodec.EncodeInto | proto/src/cbor.cpp:142-194 | appends the encoding of the value and nothing else |
| CborCodec.EncodeArray | proto/src/cbor.cpp:173-177 | the element loop |
| CborCodec.EncodeMap | proto/src/cbor.cpp:179-191 | encode apart, sort by key bytes, write out |
| CborCodec.EncodeCanonical | proto/src/cbor.cpp:196-200 | the encoding of the value |
| CborCodec.ReadBE | proto/src/cbor.cpp:204-211 | n bytes big-endian and the position after them, or failure with the position kept |
| CborCodec.DecodeHead | proto/src/cbor.cpp:213-231 | the head at a position, or failure on short input and undefined lengths |
| CborCodec.DecodeOne | proto/src/cbor.cpp:213-289 | the item at a position and the position after it |
| CborCodec.DecodeScalar | proto/src/cbor.cpp:234-248 | integers, strings and simple values at a position |
| CborCodec.DecodeArray | proto/src/cbor.cpp:249-257 | the element loop, which ends with the bytes however large the count |
| CborCodec.DecodeMap | proto/src/cbor.cpp:258-268 | the entry loop |
| CborCodec.Decode | proto/src/cbor.cpp:291-294 | the first item of the bytes, trailing bytes ignored |
| Control.EncodeFrameBytes | proto/src/control.cpp:51-66 | the length prefix and the canonical envelope |
| Control.FilterKnown | proto/src/control.cpp:95-100 | the loop keeps exactly the entries with registered keys, in order |
| Control.DecodeFrameBytes | proto/src/control.cpp:74-102 | the specified result for every byte string |
| Control.ReadLen | core/src/session.cpp:137-140 | the big-endian length at an offset |
| Control.FrameRoundTrip | proto/src/control.cpp:51-102 | within the limit a registered message comes back key-sorted and restricted to its known keys, an unregistered one is ignored |
| Control.OversizeRejected | proto/src/control.cpp:80-81 | a payload over the limit is rejected by its length |
| Control.OrderedRoundTrip | proto/src/control.cpp:51-102 | a body of known keys in order comes back whole |
| ControlKeys.OpenExactly | proto/src/control.cpp:83-101 | an envelope of any type: outside the seventeen registered ones ignored, else exactly the entries with that type's keys, written out, survive |
| ControlKeys.FrameAcceptedIff | proto/src/control.cpp:74-101 | a frame is no violation if and only if it is complete, within 65536 bytes, and holds a pair of a non-negative type and a map |
| ControlKeys.FrameYields | proto/src/control.cpp:74-101 | and then it yields exactly the entries its type defines |
| ControlKeys.ArrivesIff | proto/src/control.cpp:5-102 | from encoder to decoder an entry arrives, as often as sent, if and only if its key is one the type defines |
| ControlKeys.FrameWire | proto/src/control.cpp:51-66 | the bytes of a frame: length most significant byte first, 82, type, body |
| ClockSync.BestAt | proto/src/clocksync.cpp:20-25 | the newest sample with the least round trip |
| ClockSync.ClockFilter.FloorDiv2 | proto/src/clocksync.cpp:7-11 | truncating division adjusted to the floor, for either sign |
| ClockSync.ClockFilter.Push | proto/src/clocksync.cpp:13-26 | for any history the window is its last 16 samples and the result the newest of least round trip among them |
| ClockSync.ClockFilter.SlideIn | proto/src/clocksync.cpp:17-18 | the window after one more sample |
| ClockSync.ClockFilter.Least | proto/src/clocksync.cpp:22-25 | the scan with <= finds the newest of the least |
| ClockSync.Slide | proto/src/clocksync.cpp:17-18 | appending to the history slides the window by one once it is full |
| ClockSync.ErrorBound | proto/src/clocksync.cpp:13-26 | with a constant true offset and trips of non-negative length the offset is off by at most half the round trip, rounded up, and that round trip is minimal |
| ClockSync.MostRecentWins | proto/src/clocksync.cpp:20-25 | of equal samples the newest is selected |
| ClockSync.BoundTight | proto/src/clocksync.cpp:14-15 | for every round trip both ends of the bound occur |
| Session.Session.constructor | core/src/session.cpp:86 | the initial state |
| Session.Session.Poll | core/src/session.cpp:90-94 | returns and clears what is queued |
| Session.Session.OnEvent | core/src/session.cpp:96-129 | the whole new state after a lifecycle event |
| Session.Session.OnControlBytes | core/src/session.cpp:131-155 | the loop at an advancing offset is frame by frame handling of the buffer, leftover included |
| Session.Session.HandleNext | core/src/session.cpp:147-152 | one turn of that loop |
| Session.Session.HandleFrame | core/src/session.cpp:218-302 | the whole new state after one frame |
| Session.Session.HandlePong | core/src/session.cpp:243-252 | a complete pong updates the clock, an incomplete one nothing |
| Session.Session.ApplyConfig | core/src/session.cpp:208-216 | stores a CONFIG and acknowledges it |
| Session.Session.ReadConfig | core/src/session.cpp:58-82 | the parsed configuration |
| Session.Session.ReadStreams | core/src/session.cpp:68-80 | the loop takes the map descriptors in order and skips the rest |
| Session.Session.HandleSetup | core/src/session.cpp:268-302 | the setup automaton: the expected message moves on, any other fails |
| Session.Session.OnTick | core/src/session.cpp:157-170 | a ping unless not yet usable, over, or pinged less than 500 ms ago |
| Session.Session.SendViewport | core/src/session.cpp:193-206 | a viewport only while streaming and 250 ms after the last; the result says whether one was queued |
| Session.Session.EncodeStats | core/src/session.cpp:172-191 | the STATS frame of a report |
| Session.DrainOnce | core/src/session.cpp:135-153 | a whole frame at the front is handled first and the rest after it |
| SessionDuties.TickPingsIff | core/src/session.cpp:157-170 | over every run a tick queues one ping with its own time if and only if the session is negotiating or streaming and no ping was queued in the last 500 ms; otherwise it changes nothing |
| SessionDuties.ViewportTells | core/src/session.cpp:201-204 | a peer reads the width first and the height second |
| SessionDuties.ViewportSentIff | core/src/session.cpp:193-206 | over every run a viewport frame is queued if and only if the session streams and none was queued in the last 250 ms; otherwise nothing changes |
| SessionDuties.StatsTell | core/src/session.cpp:172-191 | what a peer finds in the decoded STATS frame: each count at its own key, keys 6 and 7 exactly when they apply |
| SessionDuties.HelloSays | core/src/session.cpp:100-117 | what a host finds in the decoded HELLO |
| SessionDuties.EventExactly | core/src/session.cpp:96-129 | the exact effect of each lifecycle event: greeting, Fatal(7), BYE and Closed, and none once the session is over |
| SessionDuties.FrameViolates | core/src/session.cpp:218-225 | an undecodable frame is Fatal(4); an unregistered type changes nothing |
| SessionDuties.LengthViolates | core/src/session.cpp:137-145 | a length over 65536 is Fatal(4) at once and the rest of the stream is forgotten |
| SessionDuties.AnyPhase | core/src/session.cpp:230-252 | BYE, ERROR with its code or 7, and pongs act in any phase |
| SessionDuties.OtherwiseIgnored | core/src/session.cpp:254-266 | outside negotiation every other message but a CONFIG while streaming changes nothing |
| SessionDuties.ConfigWhileStreaming | core/src/session.cpp:258-263 | any CONFIG while streaming is stored, acknowledged with the integer at its key 0, and reported |
| SessionDuties.SetupInTurn | core/src/session.cpp:268-302 | WELCOME of version 1, CONFIG and START move on in turn, each with its exact effect; anything else is Fatal(4) |
| SessionDuties.FindsInt | core/src/session.cpp:16-23 | the first integer at the key, skipping other kinds, or none |
| SessionDuties.FindsText | core/src/session.cpp:25-32 | the first text at the key, or none |
| SessionDuties.FindsElement | core/src/session.cpp:35-43 | the element of the first array at the key that has an integer there, or none |
| SessionDuties.FindsArray | core/src/session.cpp:46-53 | the first array at the key, or none |
| SessionDuties.AbsentIsZero | core/src/session.cpp:58-82 | every missing field of a CONFIG or a stream descriptor is 0, and no streams are none |
| SessionDuties.MalformedSkipped | core/src/session.cpp:68-80 | a descriptor that is no map is skipped wherever it stands |
| SessionDuties.CastsModulo | core/src/session.cpp:60-78 | the casts keep a number modulo the width of their result |
| SessionRuns.TwoChunks | core/src/session.cpp:131-155 | feeding a then b is feeding a + b: state, leftover and actions, over-limit lengths and terminal frames included |
| SessionRuns.ChunkingIrrelevant | core/src/session.cpp:131-155 | any two ways of cutting the same bytes lead to the same client |
| SessionRuns.ArrivalIrrelevant | core/src/session.cpp:131-155 | cut anyhow and arriving at any times, only the clock estimate can differ |
| SessionRuns.LeftoverBounded | core/src/session.cpp:131-155 | in every run the leftover is shorter than 4 + 65536 bytes and holds no complete frame |
| SessionRuns.SentType | proto/src/control.cpp:51-66 | the type of a sent frame can be read from its bytes, whatever its length |
| SessionRuns.MessageOnTrack | core/src/session.cpp:218-302 | no message from the peer, in any phase, takes the log off the handshake |
| SessionRuns.HandshakeFollowed | core/src/session.cpp:96-307 | the log follows the handshake if and only if no Connected arrives in mid-session; nothing follows a terminal action, and streaming implies a configuration whose generation was acknowledged last |
| SessionRuns.ConnectedOnce | core/src/session.cpp:96-129 | at most one Connected suffices for that, whatever the peer sends |
| SessionRuns.PingsEverSpaced | core/src/session.cpp:157-170 | consecutive pings in the log are at least 500 ms apart |
| SessionRuns.ViewportsEverSpaced | core/src/session.cpp:193-206 | viewports queued one after the other are at least 250 ms apart |
| SessionRuns.PollConserves | core/src/session.cpp:88-94 | what was polled and what still waits is the whole log, in order |
| SessionRuns.SendsOnlyItsOwn | core/src/session.cpp:96-216 | every frame ever sent is one of the session's five kinds |
| SessionHistory.AcksMatchConfigs | core/src/session.cpp:254-291 | over every run, however many CONFIGs a chunk holds: the generations in the ACKs sent are one for one those of the CONFIGs applied, the last of which is in force |
| SessionHistory.ClockFollowsPongs | core/src/session.cpp:243-252 | over every run the estimate is the filter's choice among all pongs received, or none before the first |
| SessionHistory.ClockBound | core/src/session.cpp:243-252 | over every run, if the last sixteen pongs saw a constant offset over trips of non-negative length, the session's offset is off by at most half its round trip, rounded up |
| SessionFrames.FramesUnderstood | core/src/session.cpp:96-216 | over every run each frame sent decodes to its own message with no key stripped |
| SessionFrames.HelloArrivesIff | core/src/session.cpp:100-117 | HELLO decodes to itself if its payload is within the limit and is a violation otherwise |
| SessionFrames.HelloTells | core/src/session.cpp:102-116 | looking HELLO up gives the version and every parameter |
| SessionFrames.OneIntArrives | core/src/session.cpp:208-216 | BYE, CONFIG_ACK and CLOCK_PING decode to themselves |
| SessionFrames.ViewportArrives | core/src/session.cpp:193-206 | VIEWPORT decodes to itself |
| SessionFrames.StatsArrive | core/src/session.cpp:172-191 | STATS decodes to the body it was built from, any NaN jitter being the canonical one |
| SessionFrames.FindAt | core/src/session.cpp:16-53 | in a body with ascending keys a lookup finds the entry at its key |
| SessionFrames.FindPairAt | core/src/session.cpp:35-43 | both elements of a pair are found |
| SessionFrames.ConfigParsed | core/src/session.cpp:58-82 | parsing a CONFIG recovers every field and every extra stream of the configuration it was written for |
| SessionFrames.WelcomeHandled | core/src/session.cpp:269-280 | WELCOME names the host, activates its features and moves on |
| SessionFrames.ConfigHandled | core/src/session.cpp:282-291 | the first CONFIG is stored and its generation acknowledged |
| SessionFrames.ReconfigHandled | core/src/session.cpp:254-263 | a CONFIG while streaming is stored, acknowledged and reported |
| SessionFrames.StartHandled | core/src/session.cpp:293-301 | START begins streaming |
| SessionFrames.PongHandled | core/src/session.cpp:243-252 | a pong's three times and its arrival time make the sample, in any phase |
| SessionFrames.ErrorHandled | core/src/session.cpp:236-242 | an error ends the session with the host's own code, in any phase |
| SessionFrames.ByeHandled | core/src/session.cpp:231-235 | a farewell closes the session cleanly, in any phase |
| SessionFrames.HandshakeCompletes | core/src/session.cpp:96-302 | from a host's WELCOME, CONFIG and START frames, cut and timed anyhow, the session streams under exactly that configuration with exactly the four handshake actions |

## Left out

- ReceiverSafety.HandoffSafety: mutex and condition-variable mechanics are atomic steps here; blocking in `pop_au` is a step that is not enabled.
- Reassembly.Reassembler.Push: times are unbounded integers and frame numbers do not wrap; the code has no wrap logic either, and overflow of a signed 64-bit subtraction is not modelled.
- Session.Session.OnTick: likewise for microsecond times.
- ClockSync.ClockFilter.Push: likewise for its differences.
- ReceiverRecovery.RequestsSpaced: for times that are not negative, which `LimiterArmed` shows to be what the code needs.
- ReceiverRecovery.GapNeverQuiet: for times that are not negative, for the same reason.
- CborCodec.EncodeMap: `std::sort` is modelled by a stable sort; with equal keys its result is unspecified, with distinct keys `AnySort` shows that no sort can differ.
- CborCodec.EncodeFloat: the cast to single and the comparison are the function `Narrow`, which `NarrowIff` shows to be their exactness test; rounding of the cast itself is the platform's.
- CborRoundTrip.RoundTrip: for lengths below 2^64, as a 64-bit machine's are; map keys that encode alike come back in the stable order.
- FloatBits.NarrowIff: the cast from double to single is modelled by its exactness test, the only thing the encoder uses of it; which NaN a widened signalling NaN becomes is the platform's.
- SessionFrames.HelloArrivesIff: for payloads shorter than 2^32, beyond which the length field itself wraps (as it does in `EncodeFrame`).
- The counter of dropped frames adds fragments to frames, so beyond its total (`DropsTotalled`) no conservation law is stated of it.
- `find_int` and the other lookups have conversions to unsigned that are modelled as two's complement.
- Transports, decoders, rendering, overlays, JNI and Kotlin: foreign calls and user interface.
- `quest/src/net_session.cpp`, `sdl/src/main.cpp` and the JNI bridge: glue that forwards events; only the inputs they can produce are modelled.
- `proto/src/vector_adapter.cpp`, `proto/src/keymap.cpp`, hexadecimal helpers, error names and metrics: file I/O or easy members.
