# Verified models of a VoIP client's state machines

This project models, in Dafny 4.11, the parts of a peer-to-peer voice client whose correctness is a
statement over every run: the two lock-free sample rings between audio callbacks and codec threads,
the streaming resamplers, the echo canceller's delay line and window, STUN response parsing, NAT
port prediction, the race between a direct and a relayed connection, the send and receive
pipelines, NAT classification, candidate updates, and the protocol analyzer's loss accounting.

`dafny verify dfyconfig.toml` checks everything. There is one module per component; `Basics`,
`Modular` (remainders with a variable modulus) and `CallTypes` (codecs, profiles, wrapping 32-bit
counters) are shared.

## How the models are built

- **Concurrent protocols** (`BoundedRing`, `LapRing`, `Candidates`) are step machines. `Exec` runs an
  arbitrary list of actions, so a lemma about `Exec` is a statement about every interleaving. The
  rings take one sample access or one index access per step, loads may be stale by the time they
  are used, and each publish is its own step. Acquire and release are treated as sequentially
  consistent. The Rust and the C++ half of the bounded ring take the same steps, so one machine
  covers every pairing of the two. The crate `wzp-android` is kept in the repository as a
  reference; the same ring interface is used by crates/wzp-native/cpp/oboe_bridge.h:22-32.
- **Objects** (`RingBuffer`, `AudioRing`, the resamplers, `EchoCanceller`, `CallEncoder`,
  `CallDecoder`, `RecvLoop`, `QualityAdapter`, `DredCache`, `StreamTable`) are classes with the
  source's fields and loops. Ghost fields hold histories (samples accepted, frames offered, packets
  processed), and every contract speaks about the histories. Where a run is fixed by its inputs
  (`CallEncoder.RunOf`, `RecvLoop.LoopOf`, `Analyzer.TableOf`), the methods are proved to compute that
  function, and the laws of all runs are lemmas about it.
- **Timed code** (`Race`) runs on a millisecond clock that polls both tasks and then the racing
  function, with the biased selection, both 500 ms sleeps and all timeouts.
- **Numbers**: machine integers are modelled with their width wherever it matters (16-bit deltas,
  32-bit sequence numbers and offsets, 64-bit cursors, 8-bit block ids). Samples and filter
  coefficients are reals, summed in the code's order.

## What the code does that its comments do not say

- The lap check of `AudioRing::read` runs once, before the copy. A writer that comes round during
  the copy is not noticed, contrary to the safety comment at crates/wzp-client/src/audio_ring.rs:32-35.
  `LapRing.TornReadExists` is such a run; `LapRing.LoadYieldsNewestCongruent` says exactly which
  sample any load yields, and that it is the right one if and only if the writer is at most one
  capacity ahead; `LapRing.ReadTearsExactlyWhen` gives the exact number of stores during a copy
  that can spoil a whole read.
- `AudioRing::read` into an empty buffer counts an overflow but leaves the cursor where it was.
- The decimator may be fed in pieces without affecting the output if and only if each piece but the
  last is a multiple of six samples (`Resampler.DownSplitExactlyAtMultiples`): left-over samples
  reach the history, but the phase restarts. `Resampler.ChunkOutputIsFir` says what every other
  chunking computes.
- The last taps of the echo canceller's window wrap round to samples newer than the one being
  cancelled, exactly when the distance of tap and sample exceeds the filter
  (`EchoCanceller.TapSeesFedStream`). Feeding more than the delay ring's headroom releases later
  samples in place of the overwritten ones; `EchoCanceller.HeadroomIsExact` shows that the bound is
  exact for every call.
- The jitter branch of the port classifier reports the first delta, not the most common one as its
  comment says (`PortAllocation.JitterReportsFirstDelta`); `PortAllocation.JitterDeltaIsMode` says
  exactly when the two agree. A list that starts with a repeated port is Random even when 60% of the
  steps agree (`PortAllocation.RepeatedFirstPortIsRandom`); `PortAllocation.DominantIsReportedExactlyWhen`
  gives the exact condition.
- Both relay sleeps count: when direct fails after t milliseconds, the relay is used if and only if
  its dial succeeds within t (`Race.RelayAfterDirectFailure`). `Race.FastRefusalLosesRelay` is a run
  that loses a healthy relay.
- Concurrent applies of candidate updates are accepted in order but may return in the opposite order
  (`Candidates.ConcurrentReturnsCanSwap`). Returns stay in order if and only if two accepting applies
  are never in flight together (`Candidates.InOrderExactlyWhenNeverTwo`); stale ones do no harm.
- A late packet moves the receive loop's expected number backwards, so numbers already played are
  concealed or played again (`RecvLoop.LateArrivalReplays`), and gaps may be filled from a packet ahead
  (`RecvLoop.LateGapFromAhead`). `RecvLoop.InSequenceExactlyWhen` gives the exact condition for a
  playout in sequence.
- Wrapping i32 sums do no harm in the port predictor, because 2^32 is a multiple of 65536
  (`PortAllocation.PredictPorts`); only builds with overflow checks need the bound of
  `PortAllocation.OverflowBoundIsTight`, and a spread of at most 32767 for the reservation.

## Model

| member | source | states |
|---|---|---|
| BoundedRing.EveryInterleavingIsFifo | crates/wzp-android/src/audio_android.rs:88-162 | Every interleaving: everything delivered is a prefix of everything accepted, and at most capacity − 1 accepted samples are outstanding |
| BoundedRing.StoreNeverHitsUnreadSlot | crates/wzp-android/src/audio_android.rs:108-132 | Every interleaving: a store never targets the slot of a sample that is still unread, including one a read in progress has yet to load |
| BoundedRing.TransferSizes | crates/wzp-android/cpp/oboe_bridge.cpp:21-59 | Every interleaving, once a call is sized: a write takes at least what fitted when it was called, a read exactly the smaller of its buffer and the backlog it saw, and reads the next samples in order; sizing itself is `EveryCallIsSized` |
| BoundedRing.EveryCallIsSized | crates/wzp-android/src/audio_android.rs:108-153 | Every interleaving, in every state where a call has read the other index: with n the smaller of the data and capacity − 1 minus the unread samples the write gives up if and only if n = 0 and is sized to n otherwise; a read likewise, with the samples published when it looked |
| BoundedRing.UndisturbedWrite | crates/wzp-android/src/audio_android.rs:108-132 | From every reachable state with an idle producer, whatever the consumer is in the middle of: a write that runs undisturbed appends exactly the samples that fit and then is idle again |
| BoundedRing.UndisturbedRead | crates/wzp-android/src/audio_android.rs:138-162 | From every reachable state with an idle consumer: a read that runs undisturbed delivers exactly the next min(buffer, unread) samples |
| BoundedRing.RepeatIsExec | crates/wzp-android/src/audio_android.rs:108-162 | Those undisturbed steps are themselves a run of the machine |
| BoundedRing.ExecKeepsInv | crates/wzp-android/src/audio_android.rs:88-162 | Every step of either side keeps the ring invariant: cursors are the history lengths modulo the capacity and every unread or stored position is intact |
| BoundedRing.RingBuffer.constructor | crates/wzp-android/src/audio_android.rs:78-85 | A new ring is empty and satisfies the invariant |
| BoundedRing.RingBuffer.AvailableToRead | crates/wzp-android/src/audio_android.rs:88-97 | The signed index difference is the number of unread samples |
| BoundedRing.RingBuffer.AvailableToWrite | crates/wzp-android/src/audio_android.rs:100-102 | Free space is capacity − 1 minus the unread samples |
| BoundedRing.RingBuffer.Write | crates/wzp-android/src/audio_android.rs:108-132 | Accepts min(length, free) samples and appends exactly those to the accepted stream |
| BoundedRing.RingBuffer.RingWrite | crates/wzp-android/cpp/oboe_bridge.cpp:37-47 | The C++ half: a pre-sized transfer appends its samples in order |
| BoundedRing.RingBuffer.Read | crates/wzp-android/src/audio_android.rs:138-162 | Delivers the oldest min(length, unread) samples and leaves the rest of the buffer alone |
| BoundedRing.RingBuffer.RingRead | crates/wzp-android/cpp/oboe_bridge.cpp:49-59 | The C++ half: a pre-sized transfer delivers the next samples in order |
| BoundedRing.RingBuffer.CaptureCallback | crates/wzp-android/cpp/oboe_bridge.cpp:78-105 | The microphone callback enqueues what fits and nothing when stopped |
| BoundedRing.RingBuffer.PlayoutCallback | crates/wzp-android/cpp/oboe_bridge.cpp:114-147 | The speaker callback plays the oldest samples, then silence to the end of the buffer |
| LapRing.EveryInterleaving | crates/wzp-client/src/audio_ring.rs:63-111 | Every interleaving: a completed read that made every load in time, or whose start the writer has not passed by more than 16384, is exactly a slice of the accepted history |
| LapRing.Conservation | crates/wzp-client/src/audio_ring.rs:63-111 | Every interleaving, cursors wrapping at 2^64: the cursors are the two positions modulo 2^64, the read position never passes the published one, and delivered + skipped + unread = accepted |
| LapRing.PublishedInTimeIsExact | crates/wzp-client/src/audio_ring.rs:104-110 | Every interleaving: a read that publishes while the writer's next store is at most 16384 past its start hands over exactly the accepted samples |
| LapRing.ReadTearsExactlyWhen | crates/wzp-client/src/audio_ring.rs:83-111 | At every reachable point where a read has been sized and not yet lapped, with b samples between its start and an idle writer: some continuation with at most k stores during the copy returns wrong samples if and only if k exceeds 16384 − b |
| LapRing.UnlappedLoadIsExact | crates/wzp-client/src/audio_ring.rs:104-106 | A load made while the writer's next store is at most 16384 ahead yields the sample the history holds there |
| LapRing.LoadYieldsNewestCongruent | crates/wzp-client/src/audio_ring.rs:67-72 | Any load yields the newest stored sample of a congruent position, which is the position itself if and only if the writer is at most 16384 ahead |
| LapRing.ReadsAreInOrder | crates/wzp-client/src/audio_ring.rs:83-111 | Every interleaving: reads cover disjoint stretches in stream order, so no position is delivered twice |
| LapRing.LogInOrder | crates/wzp-client/src/audio_ring.rs:83-111 | Every interleaving: the log of reads is in stream order and the delivered total is their summed length |
| LapRing.SizingKeepsInv | crates/wzp-client/src/audio_ring.rs:84-102 | The lap check: overflow is counted exactly when more than 16384 are unread, underrun exactly when none are; the read is idle exactly when min(buffer, retained) is 0, and otherwise loads that many from the read position or, after a lap, from the oldest retained one |
| LapRing.SingleWriter | crates/wzp-client/src/audio_ring.rs:22-25 | Neither side writes the other's cursor, and the read position only advances, up to what is published |
| LapRing.TornReadExists | crates/wzp-client/src/audio_ring.rs:83-111 | A run in which a read returns a sample never accepted at its position, with no overflow counted |
| AudioRings.AudioRing.constructor | crates/wzp-client/src/audio_ring.rs:40-49 | A new ring has accepted and read nothing |
| AudioRings.AudioRing.Available | crates/wzp-client/src/audio_ring.rs:52-56 | The wrapped cursor distance clamped to 16384 is the number of retained unread samples |
| AudioRings.AudioRing.Write | crates/wzp-client/src/audio_ring.rs:63-77 | Takes the first min(length, 16384) samples, never refuses, never touches the read cursor |
| AudioRings.AudioRing.Read | crates/wzp-client/src/audio_ring.rs:83-111 | Returns the history slice from max(read cursor, written − 16384); counts delivered and skipped; a skip happens only in a call that counts an overflow |
| AudioRings.AudioRing.SizeRead | crates/wzp-client/src/audio_ring.rs:84-102 | The first half of a read: count, start after a lap, overflow and underrun, in terms of the unread samples |
| AudioRings.AudioRing.CopyOut | crates/wzp-client/src/audio_ring.rs:104-110 | Copying and publishing deliver the slice and account for the skip |
| Resampler.Streaming | crates/wzp-codec/src/resample.rs:101-143 | Processing a then b equals processing a ++ b, in output and final history: any split when upsampling, multiples of 6 when decimating |
| Resampler.DownSplitExactlyAtMultiples | crates/wzp-codec/src/resample.rs:97-101 | A decimator split is invisible for every continuation if and only if the first part is a multiple of 6 |
| Resampler.ChunkingIsInvisible | crates/wzp-codec/src/resample.rs:101-143 | Any admissible chunking of a stream gives the whole-stream output and final history |
| Resampler.FreshStreamIsFir | crates/wzp-codec/src/resample.rs:120-127 | A fresh resampler fed in any admissible chunks computes the direct-form 48-tap filter of the zero-extended stream |
| Resampler.ChunkOutputIsFir | crates/wzp-codec/src/resample.rs:101-143 | Every chunking, multiples of six or not: output i of a chunk is the direct-form filter of the whole stream at the chunk's offset plus i steps; the phase restarts with each chunk |
| Resampler.StuffConcat | crates/wzp-codec/src/resample.rs:181-184 | Zero-stuffing commutes with splitting the input |
| Resampler.StuffAt | crates/wzp-codec/src/resample.rs:181-184 | Position p of the stuffed input is sample p / 6 if 6 divides p, and 0 otherwise |
| Resampler.CallIsFir | crates/wzp-codec/src/resample.rs:101-219 | A call on 16-bit input after any earlier input, whatever comes later: output i is the rounded 48-tap direct-form filter of the whole 16-bit input at the offset of the call plus i steps |
| Resampler.ImpulseResponse | crates/wzp-codec/src/resample.rs:120-204 | A single non-zero sample fed to a fresh resampler comes out as the kernel, last tap first, at the place of the sample |
| Resampler.FinishGain | crates/wzp-codec/src/resample.rs:203-204 | The interpolator multiplies by 6, the decimator by nothing, and silence stays silent |
| Resampler.RoundIsNearest | crates/wzp-codec/src/resample.rs:127 | Rounding goes to the nearest integer, halves away from zero |
| Resampler.QuantiseSaturates | crates/wzp-codec/src/resample.rs:127 | Rounding within the 16-bit range, saturation outside |
| Resampler.UpsampleAll | crates/wzp-codec/src/resample.rs:172-219 | Any chunks through a fresh interpolator: every output of every call is the direct-form filter of the concatenated 16-bit input |
| Resampler.DownsampleAll | crates/wzp-codec/src/resample.rs:101-143 | The same for the decimator, the phase restarting with each chunk |
| Resampler.TwoCallsEqualOne | crates/wzp-codec/src/resample.rs:172-219 | Two calls on i16 input equal one call on the concatenation |
| Resampler.Window | crates/wzp-codec/src/resample.rs:120-126 | The accumulation loop is the left fold of 48 products; its bounds test never fails |
| Resampler.ZeroStuff | crates/wzp-codec/src/resample.rs:179-184 | The work buffer is the history followed by the stuffed input, whose samples `StuffAt` gives position by position |
| Resampler.Downsampler48to8.Process | crates/wzp-codec/src/resample.rs:101-143 | The stateful decimator implements the block filter; the window start never underflows and the short-history branch is unreachable |
| Resampler.Upsampler8to48.Process | crates/wzp-codec/src/resample.rs:172-219 | The stateful interpolator implements the block filter, under the same index facts |
| EchoCanceller.SurvivorIsOriginal | crates/wzp-codec/src/aec.rs:90-98 | A delay slot holds the sample written at its position exactly while at most a ringful follows it; afterwards it holds one from at least a ring later |
| EchoCanceller.HeadroomIsExact | crates/wzp-codec/src/aec.rs:88-118 | For one call: the released positions hold their own samples, whatever the samples, if and only if the samples fed and those held back fit the ring together |
| EchoCanceller.BaseNoUnderflow | crates/wzp-codec/src/aec.rs:164 | The unsigned expression for `base` never goes below zero and equals far_pos + i − n modulo the filter length |
| EchoCanceller.TapSlotIsLag | crates/wzp-codec/src/aec.rs:164-172 | Tap k of near-end sample i reads the slot of the released sample a given lag back |
| EchoCanceller.TapsVisitEverySlotOnce | crates/wzp-codec/src/aec.rs:170-172 | For every slot exactly one tap reads it |
| EchoCanceller.PowerIsWindowEnergy | crates/wzp-codec/src/aec.rs:168-175 | `power` is the energy of the whole window, the same for every sample of the frame |
| EchoCanceller.TapSeesFedStream | crates/wzp-codec/src/aec.rs:88-175 | Both rings composed, any frame length: a tap sees the fed sample delay + lag back, and the lag is the plain distance if and only if it stays within the filter; otherwise whole filter lengths drop out |
| EchoCanceller.NoAdaptationKeepsFilter | crates/wzp-codec/src/aec.rs:180-186 | A frame that does not adapt leaves the decayed filter unchanged |
| EchoCanceller.AdaptationShrinksError | crates/wzp-codec/src/aec.rs:177-186 | With e and e′ the error on a sample before and after adapting to it: e′ · (power + 1) = e · (power + 1 − 0.01 · power), so the error keeps its sign and shrinks unless it is 0 |
| EchoCanceller.EverySampleImproves | crates/wzp-codec/src/aec.rs:166-186 | That holds for every adapting sample of every frame, with `power` as the code computes it |
| EchoCanceller.PowerIsDot | crates/wzp-codec/src/aec.rs:168-175 | `power` is the dot product of the window with itself |
| EchoCanceller.IdleFrameForgets | crates/wzp-codec/src/aec.rs:150-155 | A frame without adaptation multiplies every coefficient by 0.9999 |
| EchoCanceller.OutputIsTruncated | crates/wzp-codec/src/aec.rs:188-189 | The output is the residual cut off towards zero and clamped to 16 bits |
| EchoCanceller.PeakIsMaximum | crates/wzp-codec/src/aec.rs:103-107 | The tracked peak is the largest of the old peak and all magnitudes |
| EchoCanceller.EnergiesAreSquareSums | crates/wzp-codec/src/aec.rs:157-193 | The two running sums are the sums of squares of the near-end samples and of the residuals |
| EchoCanceller.FigureRates | crates/wzp-codec/src/aec.rs:195-200 | The figure exceeds 1 if and only if less energy is left than came in |
| EchoCanceller.TapSums | crates/wzp-codec/src/aec.rs:167-175 | The tap loop computes the dot product of filter and stream window, and the window energy |
| EchoCanceller.AdaptTaps | crates/wzp-codec/src/aec.rs:181-185 | The adaptation loop adds step times the stream window |
| EchoCanceller.CancelSample | crates/wzp-codec/src/aec.rs:166-189 | Estimate, adaptation and clamped output of one sample; what the adaptation achieves is `AdaptationShrinksError` |
| EchoCanceller.CancelAt | crates/wzp-codec/src/aec.rs:160-189 | Index arithmetic plus one sample: frame and filter change as the stream-level step says |
| EchoCanceller.CancelFrame | crates/wzp-codec/src/aec.rs:157-193 | The sample loop runs the stream-level NLMS recursion over the frame and sums near-end and residual energy |
| EchoCanceller.EchoCanceller.WithDelay | crates/wzp-codec/src/aec.rs:58-83 | Sizes of filter, delay and ring; the new canceller is empty and valid |
| EchoCanceller.EchoCanceller.Buffer | crates/wzp-codec/src/aec.rs:89-93 | The write loop appends the far-end samples to the fed stream, kept in the ring |
| EchoCanceller.EchoCanceller.ReleaseOne | crates/wzp-codec/src/aec.rs:97-107 | One release moves the oldest buffered slot to the window and tracks the peak |
| EchoCanceller.EchoCanceller.ReleaseDue | crates/wzp-codec/src/aec.rs:95-108 | The release loop drains exactly the samples that came due, in order, with their running peak |
| EchoCanceller.EchoCanceller.FeedFarend | crates/wzp-codec/src/aec.rs:88-112 | After every run of calls within the ring's headroom, released = fed minus its last `delay_samples`, and the window is the last `filter_len` released |
| EchoCanceller.EchoCanceller.DetectDoubleTalk | crates/wzp-codec/src/aec.rs:132-142 | The Geigel loop finds a near-end sample above 0.7 of a far-end peak over 100 |
| EchoCanceller.EchoCanceller.HoldDoubleTalk | crates/wzp-codec/src/aec.rs:132-145 | Double-talk is held for the frames after it was heard |
| EchoCanceller.EchoCanceller.Decay | crates/wzp-codec/src/aec.rs:152-155 | Every coefficient is scaled once |
| EchoCanceller.EchoCanceller.ProcessFrame | crates/wzp-codec/src/aec.rs:121-200 | Frame, filter and the energies behind the returned figure are those of the stream-level recursion; hold-over counting; a disabled canceller changes nothing and returns 1 |
| Stun.XorInvolution | crates/wzp-client/src/stun.rs:286 | Bitwise exclusive or undoes itself at any width |
| Stun.XorBits | crates/wzp-client/src/stun.rs:286 | Every bit of the result is the exclusive or of the operands' bits, at any width |
| Stun.Xor8Bits | crates/wzp-client/src/stun.rs:297-302 | The octet form of the decoder has the same bits |
| Stun.MaskLayout | crates/wzp-client/src/stun.rs:280-328 | Which key octet masks which octet: the port under 21 12, an IPv4 address under the cookie 21 12 A4 42, an IPv6 address under the cookie and the transaction id |
| Stun.SampleIPv4Parses | crates/wzp-client/src/stun.rs:144-328 | On literal bytes, the IPv4 response of section 2.2 of RFC 5769 up to its integrity attributes (header with the length this leaves, SOFTWARE, XOR-MAPPED-ADDRESS) parses to 192.0.2.1 port 32853 |
| Stun.MappedRoundTrip | crates/wzp-client/src/stun.rs:242-272 | Encode then decode of MAPPED-ADDRESS, IPv4 and IPv6, with any trailing bytes |
| Stun.XorRoundTrip | crates/wzp-client/src/stun.rs:280-328 | Encode then decode of XOR-MAPPED-ADDRESS for every address, transaction id and trailing bytes |
| Stun.MappedDecodeDetermines | crates/wzp-client/src/stun.rs:242-272 | Decode then encode: a value that decodes is the address's encoding up to the unused byte and the tail |
| Stun.XorDecodeDetermines | crates/wzp-client/src/stun.rs:280-328 | The same for the masked form |
| Stun.DecodeXorIsUnmaskedMapped | crates/wzp-client/src/stun.rs:274-279 | The masked reading is the plain reading, unmasked, on all bytes |
| Stun.AttrAtDetermines | crates/wzp-client/src/stun.rs:200-210 | An attribute that is read is exactly what its kind and value serialise to |
| Stun.WalkReadsBack | crates/wzp-client/src/stun.rs:200-224 | Serialise then walk: any attribute list with any 4-byte padding is read back |
| Stun.WalkDetermines | crates/wzp-client/src/stun.rs:200-224 | Walk then serialise, on any bytes: they are the serialisation of a list that reads as the walk, then a tail holding no complete attribute; only the last padding may be cut off |
| Stun.WalkAttributes | crates/wzp-client/src/stun.rs:192-226 | The attribute loop, on any bytes, chooses as the list reading says, terminates and stays in bounds |
| Stun.UpdatesKeepLast | crates/wzp-client/src/stun.rs:212-220 | Overwriting from front to back leaves what the last attribute of each kind decodes to, even when that is nothing |
| Stun.ParseBindingResponse | crates/wzp-client/src/stun.rs:144-227 | The parser computes the meaning of any byte string: header checks in order, then the attributes |
| Stun.ReadExactlyWhenAccepted | crates/wzp-client/src/stun.rs:148-190 | The attributes are looked at if and only if the buffer starts with a success header under our transaction id and holds the length it announces |
| Stun.ForeignResponseIsMismatch | crates/wzp-client/src/stun.rs:148-190 | A response to another request is refused as a transaction mismatch |
| Stun.RefusalsInOrder | crates/wzp-client/src/stun.rs:148-190 | Exactly when each refusal is given: short, cookie, error response, other type, transaction id |
| Stun.ResponseMeans | crates/wzp-client/src/stun.rs:139-227 | A serialised response parses to the last XOR-MAPPED-ADDRESS if it decodes, else the last MAPPED-ADDRESS if it decodes, else NoMappedAddress |
| Stun.ReflexiveAddressRoundTrip | crates/wzp-client/src/stun.rs:144-227 | A server that XOR-encodes an address anywhere among other attributes gets exactly that address parsed |
| PortAllocation.DeltaIsTheResidue | crates/wzp-client/src/stun.rs:663-678 | Each delta is the unique 16-bit signed number congruent to the port difference |
| PortAllocation.ThresholdIsUniqueMaximum | crates/wzp-client/src/stun.rs:705-711 | A delta reaching 60% outnumbers every other, so hash-map order cannot matter |
| PortAllocation.ThresholdIsLeast | crates/wzp-client/src/stun.rs:710 | The threshold is the least k with 5k ≥ 3n |
| PortAllocation.DominantIsReportedExactlyWhen | crates/wzp-client/src/stun.rs:647-716 | A non-zero delta shared by 60% of the steps is reported if and only if the list does not start with a repeated port and the jitter branch does not report another delta |
| PortAllocation.RepeatedFirstPortIsRandom | crates/wzp-client/src/stun.rs:647-716 | A list with four equal steps of five that is Random, because its first port is repeated |
| PortAllocation.UnknownExactlyWhen | crates/wzp-client/src/stun.rs:647-660 | Unknown and PortPreserving, each if and only if |
| PortAllocation.CountDeltas | crates/wzp-client/src/stun.rs:705-708 | The count map holds every delta with its multiplicity |
| PortAllocation.MostCommon | crates/wzp-client/src/stun.rs:709 | Whatever the iteration order, a maximal count is found |
| PortAllocation.ClassifyPortAllocation | crates/wzp-client/src/stun.rs:647-717 | The classifier agrees with an order-free definition on every port list |
| PortAllocation.RotationInvariant | crates/wzp-client/src/stun.rs:663-716 | Adding any constant mod 65536 to all ports does not change the classification |
| PortAllocation.ProgressionIsSequential | crates/wzp-client/src/stun.rs:663-699 | Three or more ports p0 + k·d mod 65536, d not 0, are Sequential with the 16-bit representative of d |
| PortAllocation.JitterReportsFirstDelta | crates/wzp-client/src/stun.rs:688-699 | A list whose reported delta is not the most common one |
| PortAllocation.JitterDeltaIsMode | crates/wzp-client/src/stun.rs:688-699 | In the jitter branch the reported delta is a most common one if and only if neither neighbouring delta is more frequent |
| PortAllocation.PredictOne | crates/wzp-client/src/stun.rs:729-731 | One prediction: the wrapped sum and the double remainder give the exact residue |
| PortAllocation.PredictPorts | crates/wzp-client/src/stun.rs:725-739 | For all arguments, in wrapping i32 arithmetic: exactly the predicted residues minus 0, strictly increasing |
| PortAllocation.OverflowBoundIsTight | crates/wzp-client/src/stun.rs:726-731 | In a build with overflow checks the i32 sums fit for every port and delta if and only if offset + spread ≤ 65535 |
| PortAllocation.NextPortIsPredicted | crates/wzp-client/src/stun.rs:719-739 | A stepping NAT is classified Sequential and its next port is in the predicted range when the number of intervening flows is within spread of offset |
| PortAllocation.PredictNext | crates/wzp-client/src/stun.rs:647-739 | End to end: classify the observations, predict from the last, and the next port of a stepping NAT, unless it is 0, is on the returned list |
| Race.RunControl | crates/wzp-client/src/dual_path.rs:610-737 | The racing function's variables at every instant, from the two completion times and outcomes |
| Race.RaceOutcome | crates/wzp-client/src/dual_path.rs:579-753 | For all completion times: over within 5 s, with the closed-form results and winner |
| Race.RaceEndsOnce | crates/wzp-client/src/dual_path.rs:694-737 | The race finishes exactly at its end time and never changes its result |
| Race.OkExactlyWhenAPathCounts | crates/wzp-client/src/dual_path.rs:739-767 | Ok if and only if a path succeeds and ends first or within 1 s of the other; the named winner is present in every Ok, and with both present it is direct if and only if direct ended no later |
| Race.Deadlines | crates/wzp-client/src/dual_path.rs:610-737 | When the other path never answers, either may take 4 s and no longer |
| Race.RelayAfterDirectFailure | crates/wzp-client/src/dual_path.rs:579-615 | After direct fails at t, the relay counts if and only if its dial succeeds within t |
| Race.FastRefusalLosesRelay | crates/wzp-client/src/dual_path.rs:610-737 | A quick refusal loses a relay that would have answered in 100 ms |
| CallEncoder.SilenceDetector.IsSilent | crates/wzp-codec/src/silence.rs:54-70 | Suppressing if and only if the frame ends a quiet run longer than the hangover, with the saturating counter |
| CallEncoder.FecEncoder.GenerateRepair | crates/wzp-fec/src/encoder.rs:111-146 | ceil(n · ratio) repair symbols, numbered on from the source symbols |
| CallEncoder.CallEncoder.EncodeFrame | crates/wzp-client/src/call.rs:290-427 | Wrapping counters implement one step of the run over the whole frame history: suppressed iff the frame ends a long quiet run; comfort noise on exactly every tenth; source timestamps are the duration of all earlier frames encoded or suppressed; repairs exactly when a Codec2 block fills; an error exactly when codec or FEC refuses, and only the latter moves the clock |
| CallEncoder.CallEncoder.Suppress | crates/wzp-client/src/call.rs:308-339 | A suppressed frame advances clock and history, and emits noise on every tenth |
| CallEncoder.CallEncoder.SendSource | crates/wzp-client/src/call.rs:349-427 | An encoded frame's packets, clock and block are those the run calls for |
| CallEncoder.CallEncoder.Protect | crates/wzp-client/src/call.rs:392-426 | FEC errors only for profiles with empty blocks; then one sequence number is lost |
| CallEncoder.CallEncoder.CloseBlock | crates/wzp-client/src/call.rs:399-423 | A full block is followed by its repair packets and a fresh block |
| CallEncoder.CallEncoder.EmitRepairs | crates/wzp-client/src/call.rs:400-419 | Kind, codec, timestamp and FEC word of each repair packet |
| CallEncoder.CallEncoder.SetProfile | crates/wzp-client/src/call.rs:430-436 | A switch is one step of the run: a fresh block, with numbering, clock and block id untouched |
| CallEncoder.CallEncoder.EncodeAll | crates/wzp-client/src/call.rs:290-436 | Any run of frames and switches: kinds, codecs, timestamps and FEC words of the whole packet stream are those read off the inputs (`StreamIsFixedByInputs`), and unless FEC refuses a frame packets of all kinds are numbered 0, 1, 2, … mod 2^32 |
| CallEncoder.RunLaws | crates/wzp-client/src/call.rs:290-436 | Every run: one frame for each offer, suppressed iff it ends a run of more than the hangover's quiet frames; the open block is never full; FEC refuses nothing if every non-Opus profile has non-empty blocks |
| CallEncoder.StreamIsFixedByInputs | crates/wzp-client/src/call.rs:290-436 | Every run: the packet stream is, packet by packet, the one read off the inputs alone: a source packet for each encoded frame, stamped with the duration of the strictly earlier frames that were encoded or suppressed, under block b mod 256 and the count of frames since the block opened, b being the blocks filled so far; noise exactly at every tenth offer of a suppressed stretch; repairs exactly after the frame that fills a block |
| CallEncoder.SourceTimestamps | crates/wzp-client/src/call.rs:378 | Every run: the timestamps of the source packets are, in order, the total duration of the strictly earlier frames that were encoded or suppressed, mod 2^32 |
| CallEncoder.SteadyCall | crates/wzp-client/src/call.rs:349-427 | A call of loud frames in closed form: source packet i is stamped i frames, in block i / size mod 256, as symbol i mod size |
| CallEncoder.RepairCountIsCeiling | crates/wzp-fec/src/encoder.rs:127-128 | The repair count is the least integer not below n · ratio |
| CallEncoder.FecWordLayout | crates/wzp-client/src/call.rs:359-412 | The FEC word holds the block in its low byte and the low byte of the symbol in its high one |
| QualityAdapter.QualityAdapter.Ingest | crates/wzp-client/src/call.rs:134-139 | The window is always the last at most ten reports |
| QualityAdapter.Bands | crates/wzp-client/src/call.rs:142-153 | The three bands in the report's own units, each if and only if: loss byte at least 39 or round trip at least 51 units is catastrophic, loss byte at most 12 and round trip at most 25 units is good |
| QualityAdapter.SwitchesExactlyWhen | crates/wzp-client/src/call.rs:163-196 | Every run, any caller: a switch happens if and only if the last three calls all asked for it and neither of the two before the latest brought one, so two switches are at least three calls apart |
| QualityAdapter.NoEarlySwitch | crates/wzp-client/src/call.rs:189-195 | The first two calls never bring a switch |
| QualityAdapter.AdoptingSwitchesExactlyWhen | crates/wzp-client/src/call.rs:163-196 | Every run of a caller that adopts each answer: a switch happens if and only if the last three calls recommended a profile that is not in force |
| QualityAdapter.PressingIsLastWant | crates/wzp-client/src/call.rs:178-189 | The counter reaches k if and only if the last k calls all asked for the pending profile |
| QualityAdapter.QualityAdapter.ShouldSwitch | crates/wzp-client/src/call.rs:167-196 | Counter and pending profile implement the hysteresis law on the log of all calls, for any caller; what is recommended is the band of the latest report |
| Dred.DredCache.Offer | crates/wzp-client/src/call.rs:580-604 | After every ingest the two states are distinct objects and the last-good one holds the latest DRED-bearing packet under its sequence number |
| Dred.LastBearingAt | crates/wzp-client/src/call.rs:585-592 | The packet kept is the last one with a positive history, with none after it |
| Dred.NoneBearing | crates/wzp-client/src/call.rs:585-592 | None is kept if and only if no packet had any |
| Dred.DredCache.Reset | crates/wzp-android/src/engine.rs:990-996 | A codec switch forgets the anchor |
| CallDecoder.CallDecoder.Ingest | crates/wzp-client/src/call.rs:560-612 | The cache depends on the Opus source packets of the arrival history and nothing else |
| CallDecoder.CallDecoder.DecodeNext | crates/wzp-client/src/call.rs:668-768 | What is played for a packet, a gap or nothing; a gap is reconstructed from the latest DRED-bearing packet iff it is 1 to 128 frames ahead and reaches back far enough |
| CallDecoder.CallDecoder.TryDred | crates/wzp-client/src/call.rs:710-752 | Every attempted offset is positive, within the history, free of i32 overflow and accepted by the callee |
| CallDecoder.ReachByPosition | crates/wzp-client/src/call.rs:710-725 | By absolute positions within 2^31: a packet covers a missing frame if and only if it is 1 to 128 frames ahead and that many frames fit its history |
| CallDecoder.ProfileMatchesCodec | crates/wzp-client/src/call.rs:636-663 | Each audio codec is decoded under a profile of its own, 40 ms frames for the two lowest rates and 20 ms for the others |
| CallDecoder.SourcesAreOpus | crates/wzp-client/src/call.rs:580 | The cache sees exactly the Opus packets that are not repairs |
| RecvLoop.GapIsPlcThenDred | crates/wzp-android/src/engine.rs:1029-1094 | A gap is a concealed prefix and a suffix of min(gap, available / frame) reconstructed frames; all concealed if its packet has no DRED |
| RecvLoop.DredSuffix | crates/wzp-android/src/engine.rs:1044-1067 | The frame d back is reconstructed iff d whole frames fit the DRED history |
| RecvLoop.PlayoutIsInSequence | crates/wzp-android/src/engine.rs:1014-1105 | In-step arrivals play one frame per sequence number from first to last, in order |
| RecvLoop.GapsOfARun | crates/wzp-android/src/engine.rs:1029-1105 | Every gap of such a run: a position is reconstructed from the packet that revealed it if and only if that packet's DRED reaches back whole frames to it, else concealed |
| RecvLoop.RepairAndNoiseAreInvisible | crates/wzp-android/src/engine.rs:966 | Repair and comfort-noise packets anywhere in a run change nothing |
| RecvLoop.SwitchIsFreshStart | crates/wzp-android/src/engine.rs:968-997 | From the first Opus packet of a new codec on, everything is played as by a new loop, whatever came before |
| RecvLoop.GapPosition | crates/wzp-android/src/engine.rs:1056-1091 | A gap position gives at most one frame, under its own number, and none exactly when reconstruction is out of reach or fails and concealment fails too |
| RecvLoop.LateArrivalReplays | crates/wzp-android/src/engine.rs:1096-1097 | A run in which a late packet moves the expected number back and numbers are played twice |
| RecvLoop.LateGapFromAhead | crates/wzp-android/src/engine.rs:1044-1067 | After a late packet a gap can be reconstructed from a packet ahead of the one that revealed it |
| RecvLoop.InSequenceExactlyWhen | crates/wzp-android/src/engine.rs:1014-1105 | Any arrivals of one Opus codec within 2^31, late and repeated ones included, with a codec that never fails: the playout is in sequence, one frame each, if and only if positions strictly increase with gaps of at most 16; then each frame is the one its revealing packet calls for |
| RecvLoop.RecvLoop.OnPacket | crates/wzp-android/src/engine.rs:966-1116 | One packet is one step of that function: codec switch, DRED, gap, own frame, expected number; the heap states and their swap implement the latest DRED-bearing packet |
| RecvLoop.RecvLoop.FillGap | crates/wzp-android/src/engine.rs:1029-1094 | The gap loop fills gaps of 1 to 16 position by position |
| RecvLoop.RecvLoop.FillOne | crates/wzp-android/src/engine.rs:1039-1091 | One gap position: reconstruction where the anchor reaches, else concealment, without i32 overflow |
| RecvLoop.RecvLoop.ReceiveAll | crates/wzp-android/src/engine.rs:966-1116 | Any packets in any order, with codec switches and codec failures: everything played is fixed by the arrivals, gaps being filled from the latest DRED-bearing packet since the last switch |
| NatType.OnlyPublicBagMatters | crates/wzp-client/src/reflect.rs:439-474 | The classification depends only on the multiset of public observations |
| NatType.OrderIsIrrelevant | crates/wzp-client/src/reflect.rs:499-502 | Any reordering of the probes changes nothing |
| NatType.NoiseIsIgnored | crates/wzp-client/src/reflect.rs:413-456 | Inserting failed, private, loopback, link-local or carrier-grade probes changes nothing |
| NatType.PrivateIntervalsV4 | crates/wzp-client/src/reflect.rs:413-426 | Which IPv4 addresses are set aside, as six intervals of the 32-bit address |
| NatType.PrivateIntervalsV6 | crates/wzp-client/src/reflect.rs:413-426 | Which IPv6 addresses are set aside: the two lowest and fe80::/10, as intervals of the 128-bit address |
| NatType.MoreProbesOnlyClimb | crates/wzp-client/src/reflect.rs:458-474 | Adding any probes anywhere only climbs Unknown, Cone, SymmetricPort, Multiple |
| NatType.ConsensusExactlyAtCone | crates/wzp-client/src/reflect.rs:468-474 | A consensus address is reported exactly at Cone, and every public probe observed it |
| Candidates.AcceptedIsHighestDelivered | crates/wzp-client/src/ice_agent.rs:150-171 | Every run over a lossy, duplicating, reordering channel with concurrent applies: accepted generations strictly increase and are never 0, the last is the highest delivered, and none is accepted if and only if only generation 0 arrived |
| Candidates.ReturnedAreAuthenticAndDistinct | crates/wzp-client/src/ice_agent.rs:88-190 | What a caller is handed was gathered under that generation, and no generation is handed out twice |
| Candidates.ConcurrentReturnsCanSwap | crates/wzp-client/src/ice_agent.rs:162-190 | Two applies in flight can return in the opposite order |
| Candidates.InOrderExactlyWhenNeverTwo | crates/wzp-client/src/ice_agent.rs:150-190 | However the applies in flight return, sets come in generation order at every point of a run if and only if two accepting applies are never in flight together |
| Candidates.TwoAcceptingCanSwap | crates/wzp-client/src/ice_agent.rs:162-190 | From any reachable state with two accepting applies in flight, one of the two return orders is out of order |
| Candidates.SingleAcceptReturnsInOrder | crates/wzp-client/src/ice_agent.rs:150-190 | Without such a pair, sets are handed over in acceptance order, each newer than the one before |
| Analyzer.LostIsBounded | crates/wzp-client/src/analyzer.rs:142-151 | At most window − 2 losses for each packet after a stream's first |
| Analyzer.StreamTable.FindOrCreate | crates/wzp-client/src/analyzer.rs:191-208 | The first matching stream, else a new one |
| Analyzer.StreamTable.Process | crates/wzp-client/src/analyzer.rs:390-418 | One packet goes to the first match and is counted there, so that the table is the one the packets call for |
| Analyzer.StreamTable.ProcessAll | crates/wzp-client/src/analyzer.rs:132-208 | Any packet sequence: streams, counters and the stream of every packet are those of the first-match rule over the whole run |
| Analyzer.EveryTableBalances | crates/wzp-client/src/analyzer.rs:142-151 | Every packet sequence, duplicates and reordering included: packets + lost = 1 + distance advanced for each stream, the packets are an order-preserving interleaving of the streams, and counts sum to their number |
| Analyzer.LossPerPacket | crates/wzp-client/src/analyzer.rs:132-208 | Every run: a participant has lost at most 48 packets, a video stream at most 78, for each packet after its first |
| Analyzer.EveryTableIsLabelled | crates/wzp-client/src/analyzer.rs:132-140 | Every run: streams are numbered in order of appearance, and the switch counter is the number of codec changes among a stream's packets |
| Analyzer.StreamsAreSenders | crates/wzp-client/src/analyzer.rs:188-208 | Demultiplexing is sound: if every packet follows the latest packet of its own sender and of no other, two packets share a stream if and only if they share a sender |
| Analyzer.LostIsTrueLoss | crates/wzp-client/src/analyzer.rs:142-151 | Then `lost` is the true loss: what the sender sent from its first to its last packet seen, less what arrived |

## Left out

- Opus, Codec2, RNNoise, libopus DRED internals and WebRTC audio processing: foreign code; whether it succeeds is an input, and the usable DRED history is an attribute of the packet.
- The jitter buffer, the media header's wire format and mini-frames, the encrypted session, the adaptive controller and the DRED tuner.
- RaptorQ symbol contents and block ids inside the FEC encoder; a round trip of the FEC word and uniqueness of (block, symbol) across mid-block profile switches are not claimed, because neither the sender nor the receiver establishes them.
- Weak-memory effects beyond sequential consistency in both rings; trapping on `w + i` overflow in builds with overflow checks (the model wraps).
- Floating-point rounding everywhere; the Kaiser kernel's coefficients, convergence of the echo filter over whole frames (the step on each sample is `EchoCanceller.AdaptationShrinksError`), gain control and RMS values.
- EchoCanceller.EchoCanceller.WithDelay: promises a working canceller only for a non-empty filter and delay ring, because the code divides by both lengths; reset and the enable switch only re-initialise fields.
- EchoCanceller.EchoCanceller.ProcessFrame: the returned figure is given by the ratio whose square root the code takes.
- AudioRings.AudioRing.Read: stated for backlogs below 2^64, beyond which the cursors cannot tell a lap; writes are stated for any backlog.
- BoundedRing.RingBuffer.constructor: promises a working ring only for a positive capacity, because the code's capacity − 1 underflows at 0.
- PortAllocation.PredictPorts: models release arithmetic; a build with overflow checks stops where `PortAllocation.OverflowBoundIsTight` says, and for spreads over 32767.
- Stun.ParseBindingResponse: an error carries which check failed instead of a message text; an error response carries code 0, as in the code.
- LapRing.ReadTearsExactlyWhen: the writer is idle when the copy begins, so that it may choose what it stores; the half that bounds the stores needed holds for any writer (`LapRing.TornNeedsStores`).
- RecvLoop.InSequenceExactlyWhen: assumes one codec and a codec that never fails, without which the number of frames is not determined by the arrivals.
- Race: candidate diagnostics, the dialling of individual candidates, dial order and role selection; tasks are polled once per millisecond.
- CallEncoder.CallEncoder.EncodeFrame: quality reports, the FEC ratio byte and payload bytes are omitted; the suppressed-frame counter wraps where a checked build would trap after 2^32 frames.
- CallEncoder.FecEncoder.GenerateRepair: the keyframe ratio is omitted, because the call encoder never marks keyframes.
- RecvLoop.RecvLoop.OnPacket: FEC recovery of Codec2 blocks, whose frames the loop counts and does not play, statistics and gain control; the frame length is that of the profile the call started with, as in the code.
- NatType: text parsing of observed addresses; a probe is an optional address.
- Candidates: address parsing and `call_id` matching, which the code does not check.
- Analyzer: jitter averages, frame reassembly, decoding and reports; participants and the video probe share one table with their own windows (50 and 80).
- Encoding of Binding requests, a constant header.
- QUIC, UDP, DNS and port-mapping exchanges, audio backends, JNI and desktop bridges, the user interface, relay maps and birthday probing.
