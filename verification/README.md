# Tymbal, modelled and proved

Tymbal is an audio stack without cgo. This project models its cores, the parts
that stay hard once the operating system is replaced by one that may answer
anything, and proves what they promise for every input, every run and every
interleaving.

How the modules follow the program:

- `Rings`, `OutputRing`, `OutputStream`: the ring between a stream thread and the
  Core Audio render callback. `OutputRing` is the transition system of single
  atomic steps and copied frames; `OutputStream` is the array code, each call of
  which is one schedule of the machine.
- `CaptureRing`, `CaptureStream`: the reverse direction with its sequence-locked
  timestamp, in the same two forms.
- `CaptureReader`, `CaptureRecovery`: the stream thread on that ring, word by word
  beside the callbacks: its wait, its reads and its recoveries, and exactly what a
  recovery costs.
- `FrameRing`, `FrameBuffer`: the portable slot ring, byte by byte, with 64-bit
  counters that wrap.
- `DbusNames`, `DbusValues`, `DbusWire`, `DbusMessages`, `DbusCodec`: the bounded D-Bus codec ("Marshaling
  (Wire Format)" and "Message Format" of the D-Bus Specification): what encoding
  and decoding mean, byte by byte and name by name, the round trips, and the cursor and
  buffer code.
- `Lifecycle`, `Returns`, `StreamLoop`, `StreamThread`: Start, Stop and Close beside the
  stream thread, what they return, the thread's loop over any device, and the two
  together.
- `Fake`, `FakeControl`: the deterministic device's delay line, and Advance beside
  the stream.
- `Stager`, `Endpoints`, `Watcher`: the WASAPI packet stager, the endpoint diff, and
  the coalescing watch.
- `Alsa`: the partial-transfer loop, starting and recovering.
- `Complex`, `Fourier`, `Fft`, `Latency`: the in-place transform and the latency
  measurement on top of it. `Detectors`: the streaming detectors.
- `InputReader`: the reader that bridges the capture clock to the render clock.
- `Format`: sample conversion and interleaving.
- `Bits`, `Schedules`, `Options`: integer arithmetic, repeated steps and the usual
  option type.

A protocol is a state, a step type with `Enabled` and `Apply`, and `Run` over a
list of steps in which a disabled step is skipped; theorems quantify over all
lists. Code that works in place is a class or an array method, proved equal to a
function of the old state, about which the lemmas speak. Devices, kernels and
callers are lists of answers; a list that ends leaves a call unfinished.

Where code and comment differ the code counts: `fakeStream` with a delay of 0
returns period k-2, not k (`Fake.ExactFromOne`), and `Stop` may interrupt a device
that is already closed (`Lifecycle.OvertakenExactly`). The first read after a duplex
recovery may store a tail before the recovered one, and unread frames may then be
overwritten (`CaptureReader.TailMovesForward`, `CaptureRecovery.LosesUnread`). A WASAPI period may report a
position its first frame did not arrive with, only where packets with and
without timestamps meet in one stage (`Stager.ReportsArrival`,
`Stager.EveryStagePlaced`).

## Model

| member | source | states |
|---|---|---|
| `Fft.RevInvolution` | tymbaltest/signal.go:228-237 | Reversing the s low bits of an index twice gives the index back, so the swap loop exchanges pairs. |
| `Fft.BitReversedAt` | tymbaltest/signal.go:228-237 | Entry i of the even-before-odd order of a transform of length 2^s is the input's entry at the reversed index, for every length. |
| `Fft.NextReversed` | tymbaltest/signal.go:229-233 | The inner loop, which clears set bits from the top and sets the next, turns the reversal of i-1 into the reversal of i. |
| `Fft.BitReverse` | tymbaltest/signal.go:228-237 | The whole in-place loop leaves the array in bit-reversed order of what it held. |
| `Fft.ColumnIsCombine` | tymbaltest/signal.go:246-252 | One inner pass with its running power of the root computes exactly the combination of an even and an odd half transform. |
| `Fft.Column` | tymbaltest/signal.go:246-252 | The innermost loop changes one block of the array to the combined column and nothing outside the block. |
| `Fft.BlockLoop` | tymbaltest/signal.go:245-253 | One pass over all blocks of a size turns every block into the transform of twice the length. |
| `Fft.ButterflyLoops` | tymbaltest/signal.go:238-254 | The three nested loops compute the butterflies of the array they start from, size by size. |
| `Fft.ScaleLoop` | tymbaltest/signal.go:255-260 | Every entry is divided by the length, and no entry twice. |
| `Fft.Transform` | tymbaltest/signal.go:226-261 | For every power-of-two length the in-place fft leaves the discrete Fourier transform of what the array held, or with the inverse flag the inverse transform. |
| `Fft.QuarterTurns` | tymbaltest/signal.go:239-243 | The root table the transform assumes exists: the roots of orders 1, 2 and 4 satisfy all its laws. |
| `Fourier.ButterfliesAreDft` | tymbaltest/signal.go:238-254 | Recursive butterflies over bit-reversed input equal the transform defined as a sum of powers of the root. |
| `Fourier.CombineIsDft` | tymbaltest/signal.go:246-252 | Combining the transforms of the even and of the odd entries gives the transform of the whole. |
| `Fourier.InverseUndoes` | tymbaltest/signal.go:255-260 | Transforming over the reciprocal root and dividing by the length undoes a transform, for every power-of-two length. |
| `Fourier.EvalCircular` | tymbaltest/signal.go:189-194 | Multiplying two spectra, one of them conjugated, is the spectrum of the circular correlation. |
| `Fourier.CorrelationTheorem` | tymbaltest/signal.go:189-194 | Transform both, multiply by the conjugate, transform back: the result is the circular correlation with a real probe. |
| `Latency.CircularIsLinear` | tymbaltest/signal.go:176-188 | With zero padding to at least the sum of the lengths less one, circular and linear correlation agree at every lag inside the capture. |
| `Latency.SpectralCorrelation` | tymbaltest/signal.go:176-194 | So the real part left by the three transforms at lag i is the direct sum of probe[j]*capture[i+j]. |
| `Latency.TransformSize` | tymbaltest/signal.go:176-180 | The doubling loop finds a power of two that holds both signals, and half of it would not. |
| `Latency.Correlate` | tymbaltest/signal.go:176-194 | Loading, transforming, multiplying and transforming back leaves the direct correlation at every lag inside the capture. |
| `Latency.MeasureLatencyFrames` | tymbaltest/signal.go:172-212 | Malformed input is rejected exactly by the four checks; silence at all lags is the no-peak error; otherwise the result is the smallest delay in range whose direct correlation is largest in absolute value. |
| `DbusValues.DecodeEncoded` | internal/dbus/codec.go:128-214 | Wherever in a buffer the little-endian encoding of a value stands at a position congruent mod 8, decoding there returns the value and stops right behind it, variants and depth limit included. |
| `DbusValues.EncodeDecoded` | internal/dbus/codec.go:216-296 | Every value the strict decoder accepts encodes to exactly the bytes it was read from: padding, lengths, terminators and variants have one encoding. |
| `DbusValues.ValuesRoundTrip` | internal/dbus/codec.go:297-326 | For every signature and values that encodeValues accepts, decodeValues of the result returns the values. |
| `DbusValues.BytesRoundTrip` | internal/dbus/codec.go:297-326 | Every byte string within the message limit that decodeValues accepts is what encodeValues makes of the values it returns. |
| `DbusNames.NamesMean` | internal/dbus/codec.go:81-127 | Interface, member and bus names are accepted exactly by rules about the positions of characters and separators: nonempty elements of letters, digits, underscores and in bus names hyphens, no digit first except in unique names, at least one separator, at most 255 bytes. |
| `DbusNames.PathMeans` | internal/dbus/codec.go:62-80 | A path is accepted exactly if it is the root, or begins with a slash and every element behind one is not empty and of letters, digits and underscores. |
| `DbusNames.Utf8Means` | internal/dbus/codec.go:165-197 | A text is accepted exactly if it is the UTF-8 (section 3 of RFC 3629) of some list of code points, surrogates excluded. |
| `DbusWire.Words32` | internal/dbus/codec.go:128-164 | A 32-bit word is read from its four bytes as their weighted sum, in either order. |
| `DbusWire.Words64` | internal/dbus/codec.go:128-164 | And a 64-bit word from its eight. |
| `DbusWire.EncodedBytes` | internal/dbus/codec.go:219-296 | The bytes of every encoding, literally: zeros up to the alignment, numbers in two's complement with the low byte first, a length, the text and a zero, and for a variant its one-code signature and the value behind it. |
| `DbusWire.EncodesExactly` | internal/dbus/codec.go:219-296 | A value is encoded if and only if it is of the type, its texts are sound, no variant lies directly in a variant, and every part ends within 64 KiB. |
| `DbusWire.BigRoundTrip` | internal/dbus/codec.go:128-164 | Big-endian numbers are read as the bytes turned round: reading what is written in either order gives the number. |
| `DbusWire.TextMeans` | internal/dbus/codec.go:261-279 | Texts are UTF-8 without zero, signatures at most 255 of the nine codes, paths sound. |
| `DbusMessages.ReadFieldsEncoded` | internal/dbus/codec.go:352-358 | Reading the encoded header fields one after another accepts exactly when folding the fields themselves does, with the same header. |
| `DbusMessages.AcceptAllMeaning` | internal/dbus/codec.go:408-463 | The field loop accepts exactly the headers whose codes are distinct and whose every field follows the rule of its code (its literal signature, and the name rules by positions of characters and separators; codes from 10 on pass), and keeps the last reply serial, signature and error name. |
| `DbusMessages.ReadMarshalled` | internal/dbus/codec.go:340-486 | Whatever bytes follow, reading a marshalled message gives kind, serial, reply serial, signature, error name and values and leaves exactly those bytes if its codes are distinct, every field follows the literal rule of its code and the fields its kind requires are there, and is a protocol error if not: an if and only if for all inputs marshal accepts. |
| `DbusMessages.CompleteMeans` | internal/dbus/codec.go:464-471 | A message of a kind has its required fields exactly if those codes, written out for each kind, occur among its fields. |
| `DbusMessages.SignatureMeans` | internal/dbus/codec.go:432-447 | Among acceptable fields the signature that is found is the one sent if and only if every field with code 8 carries it. |
| `DbusMessages.MarshalsExactly` | internal/dbus/codec.go:340-378 | A message is made exactly of a kind and a serial that exist, values and fields that encode, a header of at most 16 KiB and 64 KiB in all; it begins with the sixteen literal bytes, then the fields, and ends with the body. |
| `DbusMessages.HeadDecides` | internal/dbus/codec.go:379-406 | Which streams are refused for their first sixteen bytes alone: byte order, version, kind, serial and the two lengths, each read in the stream's own order. |
| `DbusMessages.StreamRoundTrip` | internal/dbus/codec.go:379-486 | Any number of concatenated sendable messages read back one after another, leaving what follows them. |
| `DbusCodec.Decoder.SkipTo` | internal/dbus/codec.go:39-50 | Alignment skips only zero bytes and fails on any other or at the end. |
| `DbusCodec.Decoder.TakeText` | internal/dbus/codec.go:165-197 | The string cases accept and reject exactly as the specification of text does, and move the cursor behind the terminator. |
| `DbusCodec.Decoder.TakeValue` | internal/dbus/codec.go:128-214 | The cursor decoder returns the specified value, or nothing, and stands where the specification says. |
| `DbusCodec.Encoder.PutText` | internal/dbus/codec.go:261-279 | The string cases append exactly the specified bytes or fail, including the limit. |
| `DbusCodec.Encoder.PutValue` | internal/dbus/codec.go:219-296 | The appending encoder succeeds exactly when the value has an encoding at this offset and then appends it. |
| `DbusCodec.EncodeList` | internal/dbus/codec.go:297-308 | The loop over a signature computes the specified encoding of the values or fails where there is none. |
| `DbusCodec.DecodeList` | internal/dbus/codec.go:309-326 | The loop over a signature computes the specified values, or fails, also when bytes are left over. |
| `DbusCodec.WriteFields` | internal/dbus/codec.go:352-358 | The header loop appends the specified encoding of all fields or fails exactly where there is none. |
| `DbusCodec.WriteMessage` | internal/dbus/codec.go:340-378 | The imperative marshal computes the specified bytes for every input, error cases included. |
| `DbusCodec.ReadHeader` | internal/dbus/codec.go:407-463 | The field loop with its cursor and its table of seen codes computes the specified header or rejects. |
| `DbusCodec.Gather` | internal/dbus/codec.go:426-462 | The switch over the field codes, with its splits of names into elements, accepts exactly the fields that follow the rule of their code, and stores what they carry. |
| `DbusCodec.ReadBody` | internal/dbus/codec.go:464-486 | Padding, required fields and the body are checked as specified, and never read past the message. |
| `DbusCodec.NextMessage` | internal/dbus/codec.go:379-486 | One message is taken off the stream exactly as specified: accepted with what follows left, rejected, or short. |
| `Rings.PieceIsSlot` | internal/coreaudio/stream_darwin.go:336-347 | The two-piece copy visits slot (at+j) mod capacity with its j-th frame, however it wraps. |
| `Rings.CopyIn` | internal/coreaudio/stream_darwin.go:336-347 | The two copies into the ring overwrite exactly the slots of the next n positions, each with its frame. |
| `Rings.CopyOut` | internal/coreaudio/render_darwin_arm64.s:81-107 | The two copies out of the ring deliver the frames of the n positions from tail in order and leave the rest of the buffer. |
| `OutputRing.InvAlways` | internal/coreaudio/stream_darwin.go:239-351 | Every interleaving of atomic steps of stream thread, callback and interrupter keeps the invariant of positions, ring contents, callback progress and wake-ups. |
| `OutputRing.QueueIsFifo` | internal/coreaudio/render_darwin_arm64.s:69-139 | In every reachable state 0 <= head-tail <= fill <= capacity, the frames copied are a prefix of those published, and between callbacks the frames asked for are tail plus the counted shortfall. |
| `OutputRing.WrittenIsCommitted` | internal/coreaudio/stream_darwin.go:331-351 | Over any schedule what gets published after Start is the concatenation of the committed periods in commit order. |
| `OutputRing.HeardInOrder` | internal/coreaudio/stream_darwin.go:239-351 | From Start on, under every schedule, the frames the callbacks copy are a prefix of fill frames of silence followed by the committed periods. |
| `OutputRing.NoSlotSharedWhileCopying` | internal/coreaudio/stream_darwin.go:336-347 | While Commit is copying a frame in, no callback reads that slot. |
| `OutputRing.NoLostWakeUp` | internal/coreaudio/stream_darwin.go:262-320 | A Wait blocked although there is room for a period or an interrupt was requested has a signal pending, or a callback or the interrupter is about to signal. |
| `OutputRing.InterruptEndsWait` | internal/coreaudio/stream_darwin.go:262-320 | An Interrupt ends the Wait it finds, blocked or not, once the stream thread has taken its signal and looked at the flag. |
| `OutputStream.NextPow2` | internal/coreaudio/stream_darwin.go:92-98 | The doubling loop returns a power of two of at least n that no other such power is below. |
| `OutputStream.NewStream` | internal/coreaudio/stream_darwin.go:103-112 | A stream is refused exactly when its parameters are bad or no power-of-two ring of at least fill frames is within the frame and byte limits; otherwise it starts as the initial state of the ring machine. |
| `OutputStream.CommitRun` | internal/coreaudio/stream_darwin.go:331-351 | Commit run alone, as a schedule of single steps, overwrites the ring at head with the period and publishes it. |
| `OutputStream.RenderRun` | internal/coreaudio/render_darwin_arm64.s:69-139 | A callback run alone, as a schedule of single steps, delivers min(requested, available) frames, counts the rest and gives the slots back. |
| `OutputStream.CallbackEndsWait` | internal/coreaudio/stream_darwin.go:262-288 | A blocked Wait is let go by the next callback that asks for a period or more: the stream thread takes its signal and stages a period. |
| `OutputStream.Stream.constructor` | internal/coreaudio/stream_darwin.go:103-160 | A new stream is the initial state of the ring machine with zeroed ring. |
| `OutputStream.Stream.Start` | internal/coreaudio/stream_darwin.go:239-256 | Start succeeds once, before any stop, and is the schedule that queues fill frames of silence. |
| `OutputStream.Stream.TakeRoom` | internal/coreaudio/stream_darwin.go:269-276 | A pass of Wait stages a period exactly when there is room for one below the fill level. |
| `OutputStream.Stream.Commit` | internal/coreaudio/stream_darwin.go:331-351 | The array code of Commit is that schedule, and is refused unless a period is staged. |
| `OutputStream.Stream.Render` | internal/coreaudio/render_darwin_arm64.s:69-139 | The callback's array code is that schedule, and fills the buffer with the frames due followed by silence. |
| `CaptureRing.InvAlways` | internal/coreaudio/capture_darwin_arm64.s:46-125 | Every interleaving of the input callback's steps with the reader's, whatever tails it stores, keeps the invariant of ring, packet fates, sequence lock, stamp log and reader. |
| `CaptureRing.WholePackets` | internal/coreaudio/capture_darwin_arm64.s:46-125 | After any schedule, between callbacks, the packets offered split in order into those published whole and those dropped whole; the drop counters are their number and frames; frames offered = head + underFrames. |
| `CaptureRing.FramesSplit` | internal/coreaudio/capture_darwin_arm64.s:104-115 | However packets are split into kept and dropped, their frames add up. |
| `CaptureRing.RoomWraps` | internal/coreaudio/capture_darwin_arm64.s:48-56 | With tail more than a ring behind head the unsigned difference wraps, and every packet a callback may bring seems to fit. |
| `CaptureRing.TopIntact` | internal/coreaudio/capture_darwin_arm64.s:46-80 | Whatever tails are stored: unless a packet was tested for room with head more than a ring past tail, every frame from the greatest tail on is in its slot, and they are no more than a ring. |
| `CaptureRing.UnreadIntact` | internal/coreaudio/capture_darwin_arm64.s:46-80 | While no tail is stored before the one there, every frame published and not given back is in its slot in every state: a packet being copied never lands on it. |
| `CaptureRing.AcceptedIsWhole` | internal/coreaudio/input_darwin.go:256-281 | A snapshot that clock accepts is the four fields as one completed callback left them, with that callback's own position and timestamp, or as they were before any callback. |
| `CaptureRing.WholeStamp` | internal/coreaudio/capture_darwin_arm64.s:81-103 | The four stores between the two sequence increments leave the fields that the stamp log prescribes, with and without a device timestamp. |
| `CaptureRing.TryAlone` | internal/coreaudio/input_darwin.go:256-281 | A try of clock that no callback runs beside accepts what the last completed callback left, and is given up only between the two increments. |
| `CaptureStream.KeepRun` | internal/coreaudio/capture_darwin_arm64.s:46-103 | A callback with room, run alone, publishes the packet behind the ring's contents and stamps it. |
| `CaptureStream.DropRun` | internal/coreaudio/capture_darwin_arm64.s:104-115 | A callback without, run alone, changes only the drop counters and the status. |
| `CaptureStream.CapturedRun` | internal/coreaudio/capture_darwin_arm64.s:28-125 | A packet is dropped exactly when it is longer than the unit may deliver, was not rendered, or exceeds the free ring as 64-bit words have it; otherwise it is published whole. |
| `CaptureStream.Capture.constructor` | internal/coreaudio/input_darwin.go:55-104 | A new capture ring is the initial state of the machine. |
| `CaptureStream.NewCapture` | internal/coreaudio/input_darwin.go:55-64 | A capture ring is refused exactly when its parameters are bad or no power-of-two ring for a second of audio and four callbacks is within the limits. |
| `CaptureStream.Capture.Callback` | internal/coreaudio/capture_darwin_arm64.s:28-125 | The callback's array code has exactly that effect on ring, counters, status and stamp. |
| `CaptureStream.Capture.Release` | internal/coreaudio/duplex_darwin.go:190-190 | Storing a tail gives frames back and changes nothing else, keeping the invariant wherever behind head it lies. |
| `CaptureReader.SettingFits` | internal/coreaudio/duplex_darwin.go:128-130 | The target and the queue limit that newDuplex computes are ones the theorems of this module take. |
| `CaptureReader.InvAlways` | internal/coreaudio/duplex_darwin.go:139-241 | Every interleaving of callbacks, the wait, the words of a read, recoveries and an interrupting thread keeps the invariant of ring, reader, read data and wake-ups. |
| `CaptureReader.NoLostWakeUp` | internal/coreaudio/input_darwin.go:166-207 | A capture wait blocked although enough frames are there, a callback failed or it was interrupted has a signal pending, or the callback or the interrupter is about to signal. |
| `CaptureReader.RecoverAhead` | internal/coreaudio/duplex_darwin.go:232-241 | A recovery never stores a tail before one stored earlier, not even where it goes back by the target because the queue ran full. |
| `CaptureReader.ReadsPublishedWords` | internal/coreaudio/duplex_darwin.go:184-190 | End to end, across recoveries: while no packet was tested for room out of reach, and at equal rates in a read that does not begin before the frame of the last reset, the ring's memory holds at every moment the published words of every frame the read touches. |
| `CaptureReader.EveryPeriodDelivered` | internal/coreaudio/input_buffer.go:69-116 | From callback to output: every period that such a read wrote, word by word beside the callbacks, is what the specification of a read makes of the frames published below its head. |
| `CaptureReader.TailMovesForward` | internal/coreaudio/duplex_darwin.go:189-241 | Over any run tail stays behind head, and a step moves it back if and only if it ends the first read since a recovery and that read's period, in capture frames, is too short to reach half the taps beyond the recovered tail. |
| `CaptureReader.ReachKept` | internal/coreaudio/duplex_darwin.go:161-241 | However often the stream recovers: while no such read is that short, room is never tested out of reach, and every frame from tail on is in its slot. |
| `CaptureReader.PlainIsDelivered` | internal/coreaudio/duplex_darwin.go:161-193 | Until the first recovery that holds without any condition, and every period is the one specified. |
| `CaptureReader.BitExactRun` | internal/coreaudio/duplex_darwin.go:161-193 | At equal rates, in a run without a recovery whose reads find queue errors below two frames, all periods delivered are one stretch of the frames the callbacks published, bit for bit, none twice and none left out. |
| `CaptureRecovery.LeavesReachExactly` | internal/coreaudio/duplex_darwin.go:184-190 | A read about to store its tail while no callback runs: callbacks can have filled the ring so far that head is more than a ring past that tail if and only if it is the first since a recovery and too short. |
| `CaptureRecovery.AcceptedOverUnread` | internal/coreaudio/capture_darwin_arm64.s:46-80 | From there the next packet is accepted whatever it holds, and each of its frames lands in the slot of a frame not given back. |
| `CaptureRecovery.LosesUnread` | internal/coreaudio/duplex_darwin.go:184-241 | A run that gets there, for every setting whose target and first read fit the ring: it starts, recovers, reads once, and a frame the reader was promised is overwritten. |
| `CaptureRecovery.HeldExactly` | internal/coreaudio/duplex_darwin.go:184-241 | At equal rates, as the first read after a recovery begins: the ring keeps its frames whatever the callbacks do if and only if the read does not begin behind the recovered tail, in the terms of head, target and queue reset. |
| `FrameRing.SlotOfPosition` | internal/ring/frame.go:111-130 | Masking a 64-bit counter that has wrapped gives the slot of the unbounded position. |
| `FrameRing.InvAlways` | internal/ring/frame.go:102-134 | Every interleaving of byte copies, loads and stores of one producer and one consumer keeps the invariant. |
| `FrameRing.ReadsArePrefix` | internal/ring/frame.go:102-134 | However often the counters wrap past 2^64, the frames read are a prefix of the frames written, whole and in order, and head-tail mod 2^64 is the occupancy, between 0 and slots. |
| `FrameRing.RefusalsAreExact` | internal/ring/frame.go:106-128 | Write is refused exactly when the ring is full at its load of tail, Read exactly when it is empty at its load of head. |
| `FrameRing.NeverTorn` | internal/ring/frame.go:111-131 | No byte of a slot is read while the producer is writing that slot. |
| `FrameBuffer.WriteRun` | internal/ring/frame.go:102-116 | Write run alone, as a schedule of single steps, puts the whole frame in the next slot or does nothing. |
| `FrameBuffer.ReadRun` | internal/ring/frame.go:120-134 | Read run alone, as a schedule of single steps, takes the oldest frame or does nothing. |
| `FrameBuffer.Ring.constructor` | internal/ring/frame.go:65-98 | A new ring is the initial state of the machine. |
| `FrameBuffer.Ring.Write` | internal/ring/frame.go:102-116 | The array code of Write is that schedule, refuses a buffer of the wrong length, and tells whether the frame went in. |
| `FrameBuffer.Ring.Read` | internal/ring/frame.go:120-134 | The array code of Read is that schedule, refuses a buffer of the wrong length, and fills it with the oldest frame. |
| `FrameBuffer.PowerOfTwoShape` | internal/ring/frame.go:40-47 | The test slots&(slots-1) == 0 passes exactly the powers of two. |
| `FrameBuffer.PlacementSafe` | internal/ring/frame.go:40-98 | A placement lies aligned inside the arena with disjoint control block and slots, and an unused arena of the advertised size always has one. |
| `FrameBuffer.PlacedExactly` | internal/ring/frame.go:40-98 | A ring has a place if and only if its slots are a power of two of at least one byte and control block and slots fit behind the next multiple of eight, and takes exactly that room. |
| `FrameBuffer.AdvertisedExactly` | internal/ring/frame.go:40-61 | A size is advertised if and only if the slots are a power of two of at least one byte and an int holds it; it is 152 bytes of control block, 14 of alignment and the slots. |
| `Lifecycle.InvAlways` | stream.go:281-498 | Every interleaving of any number of Start, Stop and Close calls with the stream thread keeps the invariant. |
| `Lifecycle.OncePerDevice` | stream.go:281-498 | Device Start, Stop, Interrupt and Close each run at most once and each of the three channels is closed at most once. |
| `Lifecycle.ClosedAfterThread` | stream.go:344-389 | The device is closed, or about to be, only when the stream thread never began or has finished, and a device asked to start has been stopped by then. |
| `Lifecycle.ReturnsMean` | stream.go:281-389 | Stop returning nil implies the thread finished; Start returns the device's own answer, which if an error is the failure the stream keeps; every Close returns the same error on a closed stream. |
| `Lifecycle.FirstFailure` | stream.go:488-509 | The kept failure is the first error the thread met; a finished stream is failed exactly when there was one. |
| `Lifecycle.ClosedIsFinal` | stream.go:344-389 | A closed stream stays closed whatever is called next, and the device sees no further Start, Stop or Close. |
| `Lifecycle.NoDeadlock` | stream.go:306-418 | While a call is unfinished, that call, the closing call or the stream thread has an enabled step. |
| `Lifecycle.InterruptAfterClose` | stream.go:334-337 | A run exists in which Stop's Interrupt reaches the device after it was closed. |
| `Lifecycle.LateExactly` | stream.go:334-379 | When the device is closed, an Interrupt can still reach it later if and only if some Stop is between leaving the mutex and its Interrupt. |
| `Lifecycle.OvertakenExactly` | stream.go:306-389 | Over runs: once the device is closed, an Interrupt reaches it then or in some continuation if and only if some Stop owed its Interrupt where it was closed; a Close that no Stop runs beside is never overtaken. |
| `Returns.ReturnsExactly` | stream.go:281-389 | Over runs, by the stream as each call found it: a Stop that returned, returned nil if it found the stream started and neither closing nor closed, stopped and failed streams included, and the state error if not; a Start returned the state error unless the stream was neither started nor closing; a Close returned the error of the one close of the device. |
| `Returns.StartReturnsAnswer` | stream.go:296-304 | What a Start that was let in returns is what the device answered when it was asked to start. |
| `Returns.CloseReturnsAnswer` | stream.go:366-389 | What every Close returns is what the device answered when it was closed. |
| `Returns.InterruptedOnce` | stream.go:324-337 | Once every call has returned, the device of a running stream that was asked to stop has been interrupted exactly once. |
| `StreamLoop.BrokenMeans` | stream.go:515-656 | The running flag is up exactly when some dropout or recovered xrun has no later successful commit. |
| `StreamLoop.TraceIsScript` | stream.go:511-657 | For every list of rounds, whatever the dropout counter does: the events are, round by round up to the first that does not go on, what the wait lost, the callback, the accepted commit, what the commit lost and the recovered xrun, each if and only if the round had it. |
| `StreamLoop.EventsCounted` | stream.go:588-655 | There are exactly as many callbacks as played rounds that are ready, decode and find no stop, as many commits as accepted ones, each right behind its callback, and as many xruns as waits and commits that were recovered from one. |
| `StreamLoop.EndsAsLastRound` | stream.go:511-657 | The loop goes on while every round recovers or is accepted; else it ends as its last round does, as stopped if that found the flag set and otherwise with the first error that round met. |
| `StreamLoop.ToldAt` | stream.go:592-602 | What each callback is told depends on exactly the events before it. |
| `StreamLoop.FrameCounts` | stream.go:611-611 | The frame of the k-th callback is period*k mod 2^64. |
| `StreamLoop.EachDropoutOnce` | stream.go:522-531 | With a growing device counter the dropouts counted add up to exactly the counter's growth. |
| `StreamLoop.StopsWhenAsked` | stream.go:517-553 | The loop ends as stopped if and only if some round that is played, every round before it leaving the loop running, comes to a load of the stop flag that finds it set. |
| `StreamLoop.SaturatingAdd` | stream.go:671-685 | A sum of 64-bit words that stops at the largest. |
| `StreamLoop.Stream.SetFailure` | stream.go:500-509 | The first failure stays. |
| `StreamLoop.Stream.CountDropouts` | stream.go:523-531 | Dropouts since the last reading are added once, saturating, and raise the flag. |
| `StreamLoop.Stream.CallBack` | stream.go:588-611 | The callback is told the frame, the dropouts capped at 32 bits and the flag, and the frame advances by a period. |
| `StreamLoop.Stream.Finish` | stream.go:630-655 | The commit part does what the events of the round say: count, recover, fail or clear the flag. |
| `StreamLoop.Stream.Pass` | stream.go:517-655 | One pass produces exactly the events its round prescribes, in order, and ends, or not, accordingly; what that is, TraceIsScript says in the round's own answers. |
| `StreamLoop.Stream.Loop` | stream.go:511-657 | Over every device behaviour: the events are those of the rounds, each callback is told Frame, Dropouts and Discontinuity as the events before it prescribe, the statistics are the saturated sums, and the loop is still running, or a stop was seen, or the failure that ended it is the one recorded. |
| `StreamThread.InvAlways` | stream.go:281-657 | Every interleaving of Start, Stop and Close with the loop's own steps, each load of the stop flag one of them, keeps the invariant of both. |
| `StreamThread.RefinesLifecycle` | stream.go:449-486 | Whatever the loop does, the rest of the stream is in a state that Lifecycle's thread could bring about, so the theorems about it hold. |
| `StreamThread.LoopAndLife` | stream.go:449-657 | The rounds played are a run of the loop's specification; the failure the stream keeps from its end on is the one it ended with, and an end without one followed a request to stop. |
| `StreamThread.NothingAfterStop` | stream.go:306-342 | After a Stop that returned nil the loop is over or was never entered because the device refused to start, and no continuation has another callback. |
| `StreamThread.OneMoreCallback` | stream.go:511-657 | Once a stop is requested there is at most one more callback, and none unless the loop was past its last load of the flag in a round whose period is ready. |
| `Stager.AppendKept` | internal/wasapi/capture_windows.go:736-789 | Appending any packet keeps the stage's invariant. |
| `Stager.CommitKept` | internal/wasapi/capture_windows.go:805-826 | So does committing a period, shifting data and position. |
| `Stager.StagedInOrder` | internal/wasapi/capture_windows.go:736-843 | After any run of operations the periods committed since the last reset, followed by the staged bytes, are the bytes of the packets appended since, silence for the silent ones; the prepared period is the oldest staged, and dropouts are the resets appending made. |
| `Stager.EveryByteStaged` | internal/wasapi/capture_windows.go:736-843 | So over any run byte i of the k-th packet appended since the last reset stands behind the bytes of the packets before it, committed or staged, and is 0 if the packet is silent and else the packet's own byte i. |
| `Stager.AppendedBytes` | internal/wasapi/capture_windows.go:764-774 | An accepted packet leaves, for every i, byte i behind the stage equal to 0 if it is silent and else to its own byte, and the bytes before it as they were, or none if the stage started anew. |
| `Stager.RefusesExactly` | internal/wasapi/capture_windows.go:737-762 | A packet is refused for its geometry, as short, or as too large exactly by its frames, bytes and flags. |
| `Stager.GapMeans` | internal/wasapi/capture_windows.go:746-755 | Behind an accepted packet the next one shows a gap exactly if the device flags it, or both have a position and the second is not the one behind the last frame of the first. |
| `Stager.NoGapAtStart` | internal/wasapi/capture_windows.go:746-755 | Before the first packet, and behind a reset that forgets the position, there is no gap. |
| `Stager.AppendCounts` | internal/wasapi/capture_windows.go:746-768 | A refused packet changes nothing; otherwise one dropout is counted for a gap, one for a packet beyond capacity and one for an overflow, and the packets staged since the last reset are those before and this one, this one alone, or none. |
| `Stager.ReportsArrival` | internal/wasapi/capture_windows.go:775-803 | A prepared period reports the position its first frame arrived with if and only if that frame's packet agreed with the stage as it was appended: it began the stage, or arrived at the stage's position plus the frames staged, or without a timestamp where the stage has none. |
| `Stager.JoinExactly` | internal/wasapi/capture_windows.go:746-755 | Where the staged frames stand as they arrived, a packet that shows no gap agrees if and only if it has a timestamp exactly when the stage has a position. |
| `Stager.StepExactly` | internal/wasapi/capture_windows.go:736-843 | An operation on a faithfully placed stage leaves it so if and only if it does not append, without a reset, a packet with a timestamp to frames without or the reverse. |
| `Stager.EveryStagePlaced` | internal/wasapi/capture_windows.go:736-843 | Over any run: in every stage every frame stands at the position it arrived with if and only if no accepted packet joins, without a reset, staged frames that have a position while it has no timestamp, or the reverse. |
| `Stager.EveryPeriodPlaced` | internal/wasapi/capture_windows.go:736-826 | So in a run whose packets all have timestamps, and in one where none has, every prepared period reports the position its first frame arrived with, or none. |
| `Stager.Misreported` | internal/wasapi/capture_windows.go:775-787 | A run that mixes and misreports: after frames at 100, without position and at 500, the third period reports 102. |
| `Stager.DrainNeverOverflows` | internal/wasapi/capture_windows.go:497-554 | Draining a stage below one period, packets no longer than the native buffer never overflow it, and without a gap the packets taken follow what was staged. |
| `Stager.PollNeverOverflows` | internal/wasapi/capture_windows.go:484-495 | So pollReady never triggers the overflow reset, and ready means a staged period is handed out. |
| `Stager.CaptureStager.constructor` | internal/wasapi/capture_windows.go:262-269 | A new stager is empty, with room for the native buffer and one period. |
| `Stager.NewCaptureStager` | internal/wasapi/capture_windows.go:253-270 | The geometry is refused exactly when a count is not positive or a byte count exceeds int. |
| `Stager.CaptureStager.AppendPacket` | internal/wasapi/capture_windows.go:736-789 | The array code appends, resets and refuses exactly as the specification of the stage. |
| `Stager.CaptureStager.PreparePeriod` | internal/wasapi/capture_windows.go:791-803 | The array code copies the oldest period out exactly as specified. |
| `Stager.CaptureStager.CommitPeriod` | internal/wasapi/capture_windows.go:805-826 | The in-place shift leaves exactly the bytes behind the committed period. |
| `Stager.CaptureStager.Reset` | internal/wasapi/capture_windows.go:828-843 | A reset empties the stage, and forgets the expected position only when asked. |
| `Stager.CaptureStager.DrainPackets` | internal/wasapi/capture_windows.go:497-554 | The drain loop takes packets exactly as specified, stopping at a full period, an empty device or an error. |
| `Stager.CaptureStager.PollReady` | internal/wasapi/capture_windows.go:484-495 | pollReady as specified: interrupted, already ready, or drain and prepare. |
| `Endpoints.SortStrings` | internal/wasapi/notifications_windows.go:488-488 | The identifiers in strictly ascending byte order, each once. |
| `Endpoints.MapOfMeans` | internal/wasapi/notifications_windows.go:522-530 | An identifier names the last endpoint that carries it; the empty one names none. |
| `Endpoints.EndpointMap` | internal/wasapi/notifications_windows.go:522-530 | The loop builds that map. |
| `Endpoints.EndpointFormatChanged` | internal/wasapi/notifications_windows.go:541-551 | True exactly when inputs, outputs or the list of sample rates differ. |
| `Endpoints.DefaultID` | internal/wasapi/notifications_windows.go:532-539 | The first endpoint marked for the direction, or the empty identifier. |
| `Endpoints.DefaultReported` | internal/wasapi/notifications_windows.go:504-518 | A change of default is reported exactly when the identifiers differ, by the new default or else the old one with its mark cleared. |
| `Endpoints.DiffEndpointSnapshots` | internal/wasapi/notifications_windows.go:474-520 | The loops compute the add, remove and format events in identifier order, then the default events. |
| `Endpoints.ReplayChanges` | internal/wasapi/notifications_windows.go:490-502 | Replaying the events of a list of distinct identifiers makes exactly those identifiers current and leaves the others. |
| `Endpoints.DiffReplays` | internal/wasapi/notifications_windows.go:474-520 | Replaying a diff over the previous snapshot's picture gives the current one: the same identifiers, each with the inputs, outputs and sample rates it now has. |
| `Endpoints.ChangesExact` | internal/wasapi/notifications_windows.go:490-502 | An event is in the diff if and only if its endpoint appeared, vanished or changed format. |
| `Watcher.InvAlways` | internal/wasapi/notifications_windows.go:245-314 | Every interleaving of notifications, owner, dispatcher and cancellation keeps the invariant. |
| `Watcher.NoLostSnapshot` | internal/wasapi/notifications_windows.go:254-290 | Whatever wake-ups coalesce, a published snapshot not loaded yet has a wake pending, or a publish or load in progress, unless cancelled. |
| `Watcher.ListenerInStep` | internal/wasapi/notifications_windows.go:270-290 | Between dispatches, replaying all events handed out over the baseline gives the identifiers and formats of the last loaded snapshot. |
| `Watcher.ListenerKnowsTheWorld` | internal/wasapi/notifications_windows.go:146-290 | End to end: with nothing pending and a snapshot taken, the listener's picture is the devices as they are. |
| `Watcher.NothingAfterCancel` | internal/wasapi/notifications_windows.go:245-314 | After cancellation no continuation admits another callback. |
| `Watcher.StepLeavesLess` | internal/wasapi/notifications_windows.go:245-314 | While nothing new is notified and no enumeration fails, every step of owner or dispatcher, whichever is taken, leaves less to do: no wake-up is handled twice and no event handed out twice. |
| `Watcher.Settles` | internal/wasapi/notifications_windows.go:146-314 | From wherever an uncancelled watch has got to there is such a run to the point where nothing is pending, and then the listener's picture is the devices as they are, if a snapshot was taken or is on its way. |
| `Detectors.SlotNext` | tymbaltest/native.go:441-454 | One more sample extends a slot's window by one product, or at the window's end starts the slot over. |
| `Detectors.CountNext` | tymbaltest/native.go:380-399 | Sample n meets a point at a delay exactly when it lies a multiple of 64 behind it, and then the next point in order. |
| `Detectors.FinishedNext` | tymbaltest/native.go:449-452 | Only the last sample of a hop ends a window, and it is the next window in order. |
| `Detectors.Metrics.constructor` | tymbaltest/native.go:277-325 | The probe window is long enough for every delay to meet every point, and the points are every 64th probe sample. |
| `Detectors.Metrics.Correlate` | tymbaltest/native.go:380-399 | The loop keeps, for every delay, sum, energy and count equal to the direct correlation over the samples so far. |
| `Detectors.Metrics.Sample` | tymbaltest/native.go:441-454 | The four rotating accumulators hold the partial sums of their windows, and finish windows in order with the offline sums. |
| `Detectors.Metrics.Callback` | tymbaltest/native.go:356-374 | A period of capture is shared out by frame: silent before the probe, correlated until it ends, then windowed. |
| `Detectors.Metrics.ProbeMeasured` | tymbaltest/native.go:380-411 | Once the probe is over, every delay holds 512 and exactly the direct 512-point sum and energy, in any arithmetic. |
| `Detectors.Metrics.WindowsMeasured` | tymbaltest/signal.go:96-116 | The windows finished are windows 0,1,2,... of the capture behind the probe, all that fit, with exactly the offline 256-sample sums. |
| `InputReader.PhaseBounds` | internal/coreaudio/input_buffer.go:81-112 | One read advances the phase by period*ratio within 0.1 percent. |
| `InputReader.WithinHead` | internal/coreaudio/input_buffer.go:63-107 | With head at least required(), every frame a read touches is below head. |
| `InputReader.TailIsSafe` | internal/coreaudio/input_buffer.go:112-115 | The tail a read returns never moves back and lies below every frame the next read touches. |
| `InputReader.ErrorStaysSmall` | internal/coreaudio/input_buffer.go:74-83 | A filtered error below two stays below two while the queue error is below two. |
| `InputReader.StepSign` | internal/coreaudio/input_buffer.go:74-83 | A read steps by more than the ratio of the rates if and only if the filtered error is at least two frames, and by less if and only if it is at most minus two. |
| `InputReader.StepMonotone` | internal/coreaudio/input_buffer.go:74-83 | The larger the filtered error the larger the step. |
| `InputReader.AdjustIs` | internal/coreaudio/input_buffer.go:79-82 | From two frames up to four thousandths of a second of capture the adjustment times four seconds of capture is the filtered error, and beyond it is one thousandth. |
| `InputReader.AlphaIs` | internal/coreaudio/input_buffer.go:77-77 | The filter goes a hundredth of the way, or the part of two seconds that a period is if that is less. |
| `InputReader.FilteredBetween` | internal/coreaudio/input_buffer.go:78-78 | The filtered error lies between the one before and the queue error. |
| `InputReader.LargeErrorGrows` | internal/coreaudio/input_buffer.go:69-112 | While both clocks are constant, an error above half the greatest correction is made larger by a read if and only if the filtered error still stands two frames or more on the other side. |
| `InputReader.LaggingFilter` | internal/coreaudio/input_buffer.go:78-78 | That happens: a queue one frame short, filtered error 100, at 48 kHz. |
| `InputReader.ErrorsShrink` | internal/coreaudio/input_buffer.go:69-112 | Over runs from a reset on, with both clocks constant: as long as the queue error stays on the side it began, no read finds it larger than an earlier one. |
| `InputReader.CoefficientBlends` | internal/coreaudio/input_buffer.go:95-106 | A tap's coefficient lies on the line between its two neighbouring phases. |
| `InputReader.TapsInPlace` | internal/coreaudio/input_buffer.go:98-106 | With a filter that lets one tap through a sample is the frame that tap stands for, tap 63 the one at the phase, or silence before the origin: every tap meets its own frame. |
| `InputReader.SteadyRun` | internal/coreaudio/input_buffer.go:69-116 | At equal rates, from an integral phase, while every queue error is below two: the outputs of any number of reads are one run of consecutive capture frames, bit for bit. |
| `InputReader.MovedPhaseIsCovered` | internal/coreaudio/duplex_darwin.go:184-189 | Moving the phase to the target distance behind head leaves every frame the first read touches below head, at any period and any pair of rates. |
| `InputReader.RequiredCovers` | internal/coreaudio/input_buffer.go:63-65 | With head at least required() the whole read and its end lie below head. |
| `InputReader.TargetAims` | internal/coreaudio/duplex_darwin.go:128 | The target a duplex stream picks leaves at least three periods and half the taps, whatever the device buffer. |
| `InputReader.RequiredWhenMoved` | internal/coreaudio/duplex_darwin.go:184-187 | required() at the moved phase is at most head if and only if the target leaves room for 1.002 periods, rounded up, half the taps and two frames. |
| `InputReader.RequiredNotMet` | internal/coreaudio/duplex_darwin.go:184-187 | It is not at a period of one capture frame and the least target for it, 67, although the read is covered. |
| `InputReader.BeginsBehindTail` | internal/coreaudio/duplex_darwin.go:232-241 | After a recovery the first read begins behind the recovered tail if and only if the queue had not run full past the target, head is past the target, and it has grown by less than the target. |
| `InputReader.TailMovesBack` | internal/coreaudio/duplex_darwin.go:184-190 | The tail that read publishes lies before the recovered one if and only if, past the target, head less the target and the whole capture frames of a period stay within half the taps of it, and up to the target, period times step is below half the taps. |
| `InputReader.RecoveredReadMovesBack` | internal/coreaudio/duplex_darwin.go:184-190 | It does whenever the first read is made at exactly the required head, past the target, after a recovery without a queue reset. |
| `InputReader.Reader.Interpolate` | internal/coreaudio/input_buffer.go:96-106 | The tap loop computes the filter sum over held frames, with every coefficient index in its table. |
| `InputReader.Reader.Sample` | internal/coreaudio/input_buffer.go:88-108 | A sample is the held word itself at equal rates and zero fraction, and else the filter sum. |
| `InputReader.Reader.Steer` | internal/coreaudio/input_buffer.go:70-84 | Filtered error and step follow the queue error as specified, from zero on the first read. |
| `InputReader.Reader.Read` | internal/coreaudio/input_buffer.go:69-116 | The loops fill the buffer with exactly the specified frames of the capture, advance the phase and return the tail. |
| `InputReader.Reader.ReadNext` | internal/coreaudio/duplex_darwin.go:184-190 | The read of a duplex Wait, first or later: from where it begins it is covered by head, delivers the specified frames, and returns a tail between that of its beginning and head. |
| `Alsa.ValidatePCMParams` | internal/alsa/pcm_linux.go:196-210 | Accepts exactly positive parameters whose buffer, if given, is period*periods and fits 64 bits. |
| `Alsa.FullMoves` | internal/alsa/pcm_linux.go:589-652 | For every sequence of kernel answers transferFull returns nil if and only if the whole period was moved. |
| `Alsa.CallsPerPeriod` | internal/alsa/pcm_linux.go:589-652 | It issues at most 8*period transfers that no signal cut short. |
| `Alsa.SplitsFinish` | internal/alsa/pcm_linux.go:589-652 | However the kernel splits a period into short transfers, they complete it, one call each. |
| `Alsa.XrunHasCause` | internal/alsa/pcm_linux.go:717-730 | A transfer reports an xrun exactly when it stored its cause, and never a bare EPIPE or ESTRPIPE. |
| `Alsa.AwaitMeans` | internal/alsa/pcm_linux.go:655-684 | The answer is that of the first poll that is not idle: its error if it has one, else the interrupt if the wait may be interrupted, else the loss of the descriptor, else that it is ready; the polls behind it stay. |
| `Alsa.StallLimit` | internal/alsa/pcm_linux.go:589-652 | Fewer than eight answers in a row that move nothing are overcome and the transfer goes on where it was; the eighth ends it with EIO. |
| `Alsa.PcmStream.WaitReady` | internal/alsa/pcm_linux.go:655-684 | The poll loop answers as specified for every sequence of polls. |
| `Alsa.PcmStream.TransferFull` | internal/alsa/pcm_linux.go:589-652 | The bytes passed are an in-order prefix of the period, each once, and all of it exactly when nil is returned. |
| `Alsa.PcmStream.Prefill` | internal/alsa/pcm_linux.go:307-314 | The silent periods reach the start threshold exactly when all of them went through, and stay below it otherwise. |
| `Alsa.PcmStream.NoteXrun` | internal/alsa/pcm_linux.go:700-714 | An xrun counts one dropout, saturating, and leaves a cause for Recover. |
| `Alsa.PcmStream.Start` | internal/alsa/pcm_linux.go:283-320 | Start ends with the start threshold queued, or with an error and less; a second Start is a state error. |
| `Alsa.PcmStream.Resume` | internal/alsa/pcm_linux.go:451-468 | An endpoint is resumed exactly when success comes within 64 attempts that otherwise say EAGAIN. |
| `Alsa.PcmStream.Recover` | internal/alsa/pcm_linux.go:441-499 | A suspended stream all of whose endpoints resume goes on with what it had queued; any other that recovers has been prefilled to the start threshold. |
| `Alsa.PcmStream.Commit` | internal/alsa/pcm_linux.go:403-411 | One transfer, and a dropout exactly when it reports an xrun. |
| `Fake.DelayLine` | fake.go:430-458 | For every delay of at least one period, input word (frame, ch) of period k is the output word of period k-delay on shared channels and zero elsewhere or earlier. |
| `Fake.ExactFromOne` | fake.go:438-446 | The device is a delay line of its configured delay if and only if that delay is at least one: with none it yields period k-2. |
| `Fake.SourceSlot` | fake.go:442-446 | The slot a period reads is valid exactly once the lag has passed, and then holds the period the lag ago. |
| `Fake.RingKept` | fake.go:471-476 | Committing a period keeps the delay+2 slots equal to the last periods of the full history. |
| `Fake.FakeStream.Wait` | fake.go:390-428 | A wait reports an xrun if and only if none was reported for the period yet and a dropout or a stall longer than a period was injected for it; that counts one dropout and is looked at once, a stall moves the virtual clock, the period is then silent, and otherwise the history prescribes it. |
| `Fake.FakeStream.FillInput` | fake.go:430-458 | The copy loops put exactly the prescribed period in the input buffer. |
| `Fake.FakeStream.Commit` | fake.go:466-492 | Commit appends the period to the history the ring stands for, and is refused without a released period. |
| `Fake.FakeStream.InjectStall` | fake.go:178-185 | An injected stall replaces the one at that period and touches no other fault. |
| `Fake.FakeStream.InjectDropout` | fake.go:189-196 | An injected dropout is added to that period's faults and touches no other. |
| `Fake.RunPeriods` | fake.go:178-492 | For any run of periods with any faults injected between the waits, input period k is silent if, by the time it was waited for, a dropout or, last, a stall longer than a period had been injected for it, and otherwise what the history of the earlier periods gives; the dropouts counted are the number of such periods. |
| `Fake.MetMeans` | fake.go:409-418 | The faults met at a period are exactly a dropout among those injected for it, or a last injected stall longer than a period. |
| `FakeControl.NothingUnasked` | fake.go:117-140 | Under every interleaving committed + held + queued periods of an open stream are those released, never more than requested. |
| `FakeControl.DoneMeansAll` | fake.go:141-173 | An Advance that returns nil leaves completed equal to requested, whatever ends and reopens beside it. |
| `FakeControl.UndisturbedReturnsNil` | fake.go:117-174 | While the first opening is neither interrupted nor ended, every Advance that returned, returned nil. |
| `FakeControl.AdvanceEnds` | fake.go:117-174 | Wherever a run has got to, an Advance of an undisturbed opening can be brought to its end by the stream playing on, and returns nil with exactly what was requested committed. |
| `FakeControl.AdvanceBegins` | fake.go:117-174 | A started, undisturbed stream takes the next Advance, which can be brought to its end in the same way, that many periods further. |
| `FakeControl.OpensAgain` | fake.go:264-287 | An open stream can be ended, closed, opened and started again: a new generation from zero. |
| `FakeControl.InterruptReleases` | fake.go:137-172 | An interrupt releases an Advance in progress, which then returns nil if and only if it was past its tokens and everything was committed all the same. |
| `Format.EncodeMonotone` | internal/format/format.go:179-197 | Of two samples that are numbers, infinities included, the larger never gets the smaller integer. |
| `Format.WithinOneStep` | internal/format/format.go:179-197 | An integer sample is within half a step of the clamped input, except at full scale, where within one. |
| `Format.SampleRoundTrip` | internal/format/format.go:148-220 | For S16LE and S24_3LE decoding any bytes and encoding again reproduces them. |
| `Format.StepAway` | internal/format/format.go:148-220 | For S16LE and S24_3LE encoding and decoding moves a sample by at most one step from its clamped value. |
| `Format.FloatRoundTrip` | internal/format/format.go:150-158 | F32LE reproduces the four bytes of a sample if and only if they are not a NaN, which becomes zero. |
| `Format.WideRoundTrip` | internal/format/format.go:170-220 | S32LE reproduces the bytes of an integer if and only if float32 holds it exactly, or it is the greatest one and rounds up to full scale. |
| `Format.StoredBytes` | internal/format/format.go:148-176 | The bytes of each format, literally: the float's bits or the integer modulo its width, lowest byte first. |
| `Format.LoadedBytes` | internal/format/format.go:200-220 | What the bytes of each format stand for, literally: two's complement over the full scale, or the float's bits. |
| `Format.BytesMonotone` | internal/format/format.go:148-175 | The encoded bytes, as signed little-endian integers, keep the order of the samples, S32LE included. |
| `Format.SlotOfSample` | internal/format/format.go:104-108 | For any channel and frame counts the bytes of a sample lie at (frame*channels+ch)*width, and the values fill the bytes exactly. |
| `Format.BytesRoundTrip` | internal/format/format.go:84-144 | For S16LE, S24_3LE and F32LE and any channel and frame counts, decoding to planar samples and encoding again reproduces every byte if and only if no float among them is a NaN. |
| `Format.Checked` | internal/format/format.go:85-103 | The checks reject exactly an unknown format, no channels, uneven channels and a buffer of any other size, in this order. |
| `Format.StoreSample` | internal/format/format.go:148-176 | The byte stores put exactly the specified bytes of a sample at its offset. |
| `Format.LoadSample` | internal/format/format.go:200-220 | The shifts and the sign extension decode exactly the specified sample. |
| `Format.EncodeInterleaved` | internal/format/format.go:84-111 | The loops fill the destination with the interleaved encoding; on error nothing is written. |
| `Format.DecodeInterleaved` | internal/format/format.go:118-145 | The loops fill every channel with its decoded samples; on error nothing is written. |

## Left out

- Fft.Transform: complex numbers over the reals instead of `complex128`; the cosine and sine of each size are entries of a root table whose laws are assumed, because rounding and trigonometric values are not the point.
- Latency.MeasureLatencyFrames: `probeStart+maxDelay` and the sample lengths are unbounded, so the overflow of `int` is not modelled; the root table must reach the padded size.
- Detectors.Metrics.Callback: takes channel 0 of finite samples; layout checks, NaN handling, the sine output and the end of the run are not modelled, nor what `finish` and `latency` make of a window or a delay (square roots, angles and thresholds).
- InputReader.Reader.Read: phase, error and step are reals, not `float64`; samples are words and their float32 meaning is a pair of functions; the coefficient table is any table of its size.
- InputReader.ErrorsShrink: with both clocks constant means that from one read to the next the capture brings exactly the frames a period stands for; packets that arrive in bursts are not modelled here.
- CaptureReader.InvAlways: closing, the stopped flag, the drop check of Wait, the timeout's alive query and the output side of the duplex are left out; phases and sums are reals and positions unbounded.
- OutputRing.InvAlways: sequential consistency is assumed; positions are unbounded, and the checks of closed and already staged, the alive query and malformed buffers are not modelled.
- CaptureRing.UnreadIntact: says nothing where a tail is stored before the one there; `CaptureReader.TailMovesForward` says exactly when the stream thread does that, and `CaptureRing.TopIntact` what still holds.
- CaptureRecovery.LeavesReachExactly: stated at moments at which no callback runs, as is `CaptureRecovery.HeldExactly`, for a target that fits the ring.
- CaptureRing.AcceptedIsWhole: the sequence number is unbounded, so its wrap after 2^63 callbacks during one read is not modelled; the eight tries are any number, and the conversion of the accepted fields to nanoseconds is left out.
- OutputStream.NewStream: the failures of the arena and of the semaphore are left out, and `int` does not overflow.
- CaptureStream.Capture.Callback: `AudioUnitRender` is a status handed in; the signal mask and the call counter are left out.
- FrameBuffer.Ring.Write: a nil ring is not modelled, nor is the occupancy that Len reads from another thread.
- FrameBuffer.PlacementSafe: the arena is its size and offset, the size of the control block is that of the 64-bit build, and the kinds of refusal are not told apart.
- DbusValues.ValuesRoundTrip: strings are bytes; ranging over runes and `utf8.ValidString` are spelled out over bytes.
- DbusMessages.ReadMarshalled: an input error of the reader other than its end is not modelled.
- Lifecycle.InvAlways: a section under the mutex is one step; thread priority, the allocation watchdog, statistics and the text of errors are left out.
- StreamThread.RefinesLifecycle: what follows the last load of the flag in a round is one step, since the callers see none of it.
- StreamLoop.Stream.Loop: clocks, deadlines, timing histograms and lateness are left out; conversions and the callback are answers of the device list.
- Stager.CaptureStager.AppendPacket: positions on the performance counter are not modelled beside device positions; flag words are booleans and dropouts are unbounded.
- Stager.CaptureStager.PollReady: Wait's events, COM calls and packet release are answers handed in.
- Watcher.InvAlways: COM registration and its failures are left out; an endpoint snapshot is one step that sees the world or fails.
- Endpoints.DiffReplays: replays identifiers, channel counts and sample rates; names and the other fields an event carries are not compared by the program either.
- Alsa.PcmStream.TransferFull: the kernel's answers are two lists, one of transfers and one of polls; the descriptor set and the wake pipe are left out.
- Alsa.PcmStream.Start: an output stream; clock, prepare and link calls are one error number. The input-only start, Wait's own poll loop, Stop and Close are left out.
- Alsa.PcmStream.Prefill: needs `bufferFrames` set, as hardware negotiation always leaves it.
- Fake.RunPeriods: faults are injected between the calls, not within one; the recorded output, the ticker, `closed` and the virtual clock's readings are left out.
- FakeControl.DoneMeansAll: only the manual mode, where Advance is the one sender of tokens.
- Format.EncodeInterleaved: the one-channel Encode and Decode, which are these with one channel, are left out.
- Format.DecodeInterleaved: channels sharing memory are not modelled.
- Format.FloatRoundTrip: which real a float32 word stands for is a function handed in, of which only what reinterpreting bits is gets assumed.
- Format.LoadSample: S32LE goes through a function that stands for the rounding of a 32-bit integer to float32, so its byte round trip is exact only where that function is (`Format.WideRoundTrip`).
- Device enumeration, defaults, negotiation, sockets and authentication, thread priority, load generation, reports and the command line: plumbing around the cores.
