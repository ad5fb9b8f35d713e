# qdwin in Dafny

A model of the algorithmic kernels of qdwin, a compositor built on a vendored
libweston, with proofs of what they promise. `dafny verify dfyconfig.toml`
checks all of it.

* **QDNI input stream** (`Bytes`, `QdniPacket`, `QdniSink`, `QdniRun`,
  `QdniReplay`, `QdniSend`, `QdniEvents`). Packets with an 8-byte header go over a
  byte stream into a 264-byte buffer. `QdniSink` is the receiver as it works in
  place; `QdniRun` is a state machine over any number of peers that connect,
  write, close and are replaced, with every fragmentation. Bytes are conserved
  in every run, so deliveries are a prefix of what was sent; `QdniSend` takes
  this back to the send calls.
* **Parametric profile builder** (`ProfileSpec`, `ProfileTheorems`,
  `ProfileArguments`, `ProfileBuilder`, `Triangle`). The builder class refines a
  step function over setters; theorems are about all setter sequences and what
  the colour manager then gets. `Triangle` settles the point-in-triangle test by
  areas.
* **DRM format arrays** (`DrmFormats`). In-place array code against set algebra
  on (format, modifier) pairs.
* **Id allocator and colour objects** (`IdAllocator`, `ColorObjects`). A bitmap
  allocator against "smallest free number", and runs of init, ref and unref.
* **Colour mathematics** (`Reals`, `Lut`, `Power`, `Curves`, `CurveInverse`,
  `CurveSigns`, `CurveThreshold`, `CurveRange`, `Srgb`, `Pq`, `TransferFunctions`,
  `ColorCurve`, `CurveValues`, `Vectors`, `Lu`, `MatrixAlgebra`, `WhitePoint`).
  Inverse look-up, curve inversion, the tabled sRGB pair, the perceptual
  quantizer, LU inversion, normalised primary matrices and Bradford adaptation.
* **Paint nodes** (`PaintNodes`, `PaintHistory`). Cached colour transforms and
  their references over runs of create, destroy, ensure and profile changes; the
  copies in the nodes are one cache per surface and output.
* **Marker codec** (`Checksum`, `Crc8`, `CrcErrors`, `Marker`), **FIFO barriers**
  (`Fifo`), **FORWARD line** (`ForwardLine`), **serial sweep** (`SerialSweep`).
  `Collections` holds what several of these share.

Numbers the source holds as `float` or `double` are `real`; its explicit
tolerances are kept. `pow` is a parameter with stated laws, and
`Power.LawsHoldOfExample` shows that they can be met. The sRGB results in numbers
ask one thing more of it, which `Srgb.TwelveFifthsApart` derives from the
exponent 2.4 being twelve fifths.

Each state machine is tied to the mutable objects: `QdniReplay.Replay`,
`ColorObjects.Replay`, `PaintNodes.Replay`, `Fifo.Compositor.Replay` and
`ProfileBuilder.Build` carry out any run on them and end in the state that the
run says.

Where a promise does not hold of the code, the exact condition is proved:

* A peer that closes inside a packet is never reported as closed; `read_one`
  answers "again" from then on (`QdniRun.EofReportedIffOnBoundary`).
* Callers of send ignore its failures and go on sending. A header cut short ends
  the stream; a payload cut short is filled up by the calls after it, and a
  packet nobody sent is delivered (`QdniSend.PrefixIffNotSwallowed`,
  `QdniSend.IntruderIsDelivered`).
* Ids stay distinct and nonzero only below 2^32 - 1 live objects
  (`ColorObjects.CreateKeepsInvIff`), and a run reaches that bound
  (`ColorObjects.RunWrapsToZero`).
* A look-up table round trip needs gaps of at least 1e-5
  (`Lut.RoundTripIffSpaced`).
* An accepted curve inversion is two-sided only at exact continuity, and only
  when slope and exponent have the same sign, which the code does not check
  (`CurveSigns.InvertLinpowCorrect`, `CurveSigns.LinpowSigns`); channels that are
  accepted and fail are `CurveSigns.DroppingChannelAccepted` and
  `CurveSigns.FallingChannelAccepted`.
* A clamped curve is taken to map [0,1] onto itself. Its inverse undoes it
  exactly when it is at most 1 at 1 (`ColorCurve.ClampedInverseIff`,
  `ColorCurve.DoublingNotUndone`).
* The tabled sRGB inverse has a rounded cross-over. The pair misses exactly the
  magnitudes in [0.040449936, 0.04045) forwards and a matching interval
  backwards (`Srgb.ForwardThenInverseIff`, `Srgb.InverseThenForwardIff`).
* The quantizer and its inverse are a round trip in one order on [0,1], and in
  the other only from c1 to the power m2 (`Pq.InverseUndoesQuantizerIff`,
  `Pq.BlackNotUndone`).
* The inverse primary matrix has infinite elements exactly when the white point
  is in line with two primaries (`WhitePoint.ZeroScaleIffInLine`,
  `WhitePoint.HalfwayWhiteInLine`).
* `weston_m3f_invert` succeeds exactly when three pivots, given as functions of
  the matrix, reach 1e-9 (`Lu.Invert`). Some matrices with an inverse are
  refused and some nearly singular ones are not (`Lu.InvertibleButRefused`,
  `Lu.NearlySingularButAccepted`).
* The checksum of the marker misses two flipped bits exactly at distances that
  are multiples of 127, which a payload of 160 bits has room for
  (`CrcErrors.TwoBitsDetectedIff`, `Marker.TwoWrongBitsAcceptedIff`), and an
  exchange of neighbouring bytes whose difference is 0xFD
  (`CrcErrors.ExchangeDetectedIff`).

One comment disagrees with the code: `test-client/qdwin-test-clipboard-emit.c:525`
says the first sweep serial is accepted from 0xC0000002 on, while the test
accepts it from 0xC0000000 on (`SerialSweep.SweepAccepts`). The model follows the
code.

## Model

| member | source | states |
|---|---|---|
| `QdniPacket.Send` | qdwin/qdwin-nested-client.c:539-560 | the return value and the number of bytes written for every outcome of the two send calls; what reaches the stream is a prefix of the packet's encoding; a missing payload with a nonzero length returns 0 with bytes on the stream that are not a packet |
| `QdniPacket.DecodeEncode` | qdwin/qdwin-nested-client.c:393-449 | the parser undoes the printer, whatever bytes follow, exactly for payloads of at most 256 bytes that fit the caller's buffer; every other packet is an error |
| `QdniPacket.EncodeDecode` | qdwin/qdwin-nested-client.c:393-449 | a parsed packet re-encodes to exactly the bytes it was cut from |
| `QdniPacket.DecodeStrictPrefix` | qdwin/qdwin-nested-client.c:419-433 | every proper prefix of a packet makes the parser ask for more, and never an error |
| `QdniPacket.EncodeAllPrefix` | qdwin/qdwin-nested-client.c:393-449 | framing is unambiguous: packets that encode to a prefix of a stream are the first packets of that stream, whatever follows them that does not start with a packet |
| `QdniSink.ReadStepConserves` | qdwin/qdwin-nested-client.c:393-449 | one call conserves bytes: buffered plus unread before is the delivered packet plus buffered plus unread after |
| `QdniSink.Sink.Accept` | qdwin/qdwin-nested-client.c:377-391 | a new peer starts with an empty buffer; a failed accept changes nothing |
| `QdniSink.Sink.Append` | qdwin/qdwin-nested-client.c:400-416 | received bytes go behind the buffered ones, inside the fixed buffer |
| `QdniSink.Sink.Consume` | qdwin/qdwin-nested-client.c:441-446 | shifting down keeps exactly the unread rest |
| `QdniSink.Sink.TakePacket` | qdwin/qdwin-nested-client.c:418-448 | parsing in place agrees with the specification parser, hands out type, version and payload, and keeps the rest |
| `QdniSink.Sink.ReadOne` | qdwin/qdwin-nested-client.c:393-449 | the whole call refines the value-level step for every answer of recv, including end of file and failure |
| `QdniSink.Sink.Drain` | qdwin/qdwin.c:21253-21343 | the readable callback's loop terminates, conserves bytes, ignores an event of a replaced peer, stops on "again" only with an incomplete packet buffered, and gives up only when recv failed, the peer closed with nothing left, or a header is bad |
| `QdniSink.Sink.Hangup` | qdwin/qdwin.c:21265-21276 | the descriptor is forgotten and the buffer stays |
| `QdniRun.ReadConnConserves` | qdwin/qdwin-nested-client.c:393-449 | one read on a connection conserves bytes for every size the kernel chooses |
| `QdniRun.StepKeepsInv` | qdwin/qdwin-nested-client.c:377-449 | connect, write, close, accept, read and hangup each keep: encoded deliveries, buffer and unread bytes of the current peer add up to all it wrote |
| `QdniRun.RunKeepsInv` | qdwin/qdwin-nested-client.c:377-449 | the same over every run with any number of peers |
| `QdniRun.DeliveredIsPrefixOfSent` | qdwin/qdwin-nested-client.c:377-449 | in every run and fragmentation, the packets delivered on a connection are the first ones its peer wrote; none is lost, reordered, altered or mixed with another peer's bytes, also when bytes that are not a packet follow |
| `QdniRun.ReadOutcome` | qdwin/qdwin-nested-client.c:400-448 | on a stream of packets: an error is only a failed recv or end of file with an empty buffer, "again" is exactly a buffered proper prefix of the next packet, and a full buffer always yields a packet |
| `QdniRun.ReadsDeliverEverything` | qdwin/qdwin-nested-client.c:400-448 | no stall: reads that make any progress deliver every complete packet and leave just the unfinished tail |
| `QdniRun.EofReportedIffOnBoundary` | qdwin/qdwin-nested-client.c:406-416 | after closing, all packets are delivered first, and the closure is then reported if and only if the peer stopped on a packet boundary; a stream cut inside a packet answers "again" forever |
| `QdniRun.NothingAfterBadHeader` | qdwin/qdwin-nested-client.c:422-432 | after a bad header no run delivers another packet on that connection |
| `QdniRun.SomeRunDelivers` | qdwin/qdwin-nested-client.c:377-449 | for any packets, whatever follows them, some run delivers exactly these |
| `QdniRun.AcceptReplaces` | qdwin/qdwin-nested-client.c:377-391 | whoever is the peer, a pending connection takes its place and starts with an empty buffer |
| `QdniRun.AcceptedIsRead` | qdwin/qdwin-nested-client.c:377-449 | from every state, accepting a connection and enough reads that make progress deliver exactly the packets its peer wrote |
| `QdniRun.SomeRunReadsAccepted` | qdwin/qdwin-nested-client.c:377-449 | so some run does, whoever was the peer before |
| `QdniRun.ReplacedIsSilent` | qdwin/qdwin.c:21253-21265 | no later run delivers anything more on the replaced connection |
| `QdniRun.HungUpIsSilent` | qdwin/qdwin.c:21265-21276 | nor on the peer after its hangup; the hangup of another connection changes nothing |
| `QdniRun.CloseEndsWriting` | qdwin/qdwin-nested-client.c:406-416 | a peer that has closed its end writes nothing more, in every run |
| `QdniReplay.Transport.constructor` | qdwin/qdwin-nested-client.c:377-391 | no peer and an empty sink |
| `QdniReplay.Transport.Connect` | qdwin/qdwin-nested-client.c:377-391 | a new peer is the abstract step |
| `QdniReplay.Transport.Accept` | qdwin/qdwin.c:21349-21400 | accepting on the sink is the abstract step: the former peer is replaced and the buffer emptied |
| `QdniReplay.Transport.Read` | qdwin/qdwin-nested-client.c:393-449 | recv and read_one on the sink's array are the abstract step, for every size the kernel chooses |
| `QdniReplay.Transport.Hangup` | qdwin/qdwin.c:21265-21276 | hanging up is the abstract step |
| `QdniReplay.Replay` | qdwin/qdwin.c:21253-21400 | every run, carried out on one sink and its peers, ends in the state that the run says |
| `QdniSend.StreamIsEncoding` | qdwin/qdwin-nested-client.c:539-560 | for every sequence of send calls with any return values: the stream is the encodings of the calls that succeed before the first one that breaks it, and then what is left |
| `QdniSend.OneTornAtMost` | qdwin/qdwin-nested-client.c:539-560 | while no call before the last breaks the stream, it is the packets sent and at most the start of one more |
| `QdniSend.CutHeader` | qdwin/qdwin-nested-client.c:551-553 | after a header cut short nothing more is read as a packet, whatever calls follow |
| `QdniSend.CutBody` | qdwin/qdwin-nested-client.c:554-558 | after a whole header, the length in it and the bytes of later calls decide between a packet, "again" and an error |
| `QdniSend.DeliveredIsPrefixOfCalls` | qdwin/qdwin-nested-client.c:377-449 | from send calls to deliveries: in every run, what is delivered on a connection are the first packets of its successful calls, unless a payload cut short is filled up by later calls |
| `QdniSend.IntruderIsDelivered` | qdwin/qdwin-nested-client.c:554-558 | for every sequence with a payload cut short and enough bytes after it, some run delivers the intact packets and then one made of the torn call and the calls after it |
| `QdniSend.PrefixIffNotSwallowed` | qdwin/qdwin-nested-client.c:539-560 | the return values decide: deliveries are the first packets of the successful calls in every run and for all payload contents if and only if no cut payload is filled up |
| `QdniSend.NextCallIsSwallowed` | qdwin/qdwin-nested-client.c:554-558 | the packet delivered instead, for any call cut in its payload and any successful call after it that is long enough |
| `QdniSend.OversizedIsRefused` | qdwin/qdwin-nested-client.c:539-560 | a call with more than 256 bytes of payload can report success, and what it writes is refused whatever follows |
| `QdniEvents.DispatchToPacket` | qdwin/qdwin-nested-client.c:562-620 | dispatching a typed packet gives back the input event, with signed coordinates and times |
| `QdniEvents.WireBytes` | qdwin/qdwin-nested-client.h:68-101 | the bytes on the wire of every event, in numbers: magic, version, type, length and little-endian fields |
| `QdniEvents.DispatchedIff` | qdwin/qdwin.c:21292-21340 | a packet is dispatched exactly when its type is known and its struct complete, and what is dispatched is the struct at the front |
| `QdniEvents.DispatchedIsPrefixOfInput` | qdwin/qdwin.c:21253-21343 | end to end: what the compositor dispatches in any run is a prefix of the events the client sent |
| `DrmFormats.FormatArray.Join` | libweston-vendored/src/libweston/drm-formats.c:249-280 | in place, also with itself as argument: the new contents are the union of pairs, without duplicates |
| `DrmFormats.FormatArray.Intersect` | libweston-vendored/src/libweston/drm-formats.c:314-353 | the new contents are the intersection, formats left without a modifier are dropped |
| `DrmFormats.FormatArray.Subtract` | libweston-vendored/src/libweston/drm-formats.c:387-432 | the new contents are the difference; a format the other array lacks stays, also without modifiers |
| `DrmFormats.FormatArray.Equal` | libweston-vendored/src/libweston/drm-formats.c:212-240 | true exactly when both arrays are the same map from formats to modifier sets, although it compares only sizes and one inclusion |
| `DrmFormats.FormatArray.CountPairs` | libweston-vendored/src/libweston/drm-formats.c:193-203 | the number of distinct (format, modifier) pairs, as a 32-bit unsigned number |
| `DrmFormats.FormatArray.FindFormat` | libweston-vendored/src/libweston/drm-formats.c:174-185 | finds an entry exactly when the format is in the map |
| `DrmFormats.FormatArray.AddFormat` | libweston-vendored/src/libweston/drm-formats.c:124-143 | adds a format with no modifier and keeps the array free of duplicates |
| `DrmFormats.FormatArray.AddModifier` | libweston-vendored/src/libweston/drm-formats.c:444-461 | adds one modifier to one format and changes no other |
| `DrmFormats.FormatArray.AddFormatAndModifiers` | libweston-vendored/src/libweston/drm-formats.c:64-82 | adds a format with a whole set of modifiers |
| `DrmFormats.FormatArray.RemoveLatestFormat` | libweston-vendored/src/libweston/drm-formats.c:153-165 | undoes the last addition |
| `DrmFormats.FormatArray.Replace` | libweston-vendored/src/libweston/drm-formats.c:95-113 | becomes an equal copy of the source array, or empty when it is its own source |
| `DrmFormats.FormatArray.SameModifiers` | libweston-vendored/src/libweston/drm-formats.c:224-236 | equal length and one inclusion decide equality of modifier sets |
| `DrmFormats.HasModifier` | libweston-vendored/src/libweston/drm-formats.c:471-485 | membership of a modifier |
| `DrmFormats.FilterModifiers` | libweston-vendored/src/libweston/drm-formats.c:282-305 | the two modifier loops give intersection and difference without duplicates |
| `DrmFormats.ModifierCountIsPairs` | libweston-vendored/src/libweston/drm-formats.c:193-203 | adding up list lengths counts distinct pairs |
| `DrmFormats.UnionIsUnionOfPairs` | libweston-vendored/src/libweston/drm-formats.c:249-280 | union of the maps is union of the pairs |
| `DrmFormats.IntersectionIsIntersectionOfPairs` | libweston-vendored/src/libweston/drm-formats.c:314-353 | intersection of the maps is intersection of the pairs |
| `DrmFormats.DifferenceIsDifferenceOfPairs` | libweston-vendored/src/libweston/drm-formats.c:387-432 | difference of the maps is difference of the pairs |
| `DrmFormats.IntersectPlusSubtractCounts` | libweston-vendored/src/libweston/drm-formats.c:314-432 | the pairs of A intersected with B and of A minus B add up to those of A |
| `DrmFormats.EqualFromInclusion` | libweston-vendored/src/libweston/drm-formats.c:212-240 | same size and inclusion of duplicate-free arrays give equal maps |
| `IdAllocator.IdAlloc.constructor` | libweston-vendored/src/libweston/id-number-allocator.c:50-68 | a new allocator has exactly id 0 taken |
| `IdAllocator.IdAlloc.UpdateLowestFreeBucket` | libweston-vendored/src/libweston/id-number-allocator.c:85-116 | the cached bucket becomes the first one that is not full; the buckets double exactly when all are full, and no id changes |
| `IdAllocator.IdAlloc.GetId` | libweston-vendored/src/libweston/id-number-allocator.c:124-153 | the id is the smallest free number, cut to 32 bits, and only that number becomes taken; the buckets double exactly when the last free bit is used, which is where the source asserts that their count does not overflow |
| `IdAllocator.IdAlloc.PutId` | libweston-vendored/src/libweston/id-number-allocator.c:165-192 | exactly that id becomes free and the cached bucket is again the first that is not full |
| `IdAllocator.FirstFreeIsLeast` | libweston-vendored/src/libweston/id-number-allocator.c:124-153 | the first clear bit of the first bucket that is not full is the smallest free number |
| `IdAllocator.FullIffCount` | libweston-vendored/src/libweston/id-number-allocator.c:93-101 | no bucket has a free bit exactly when as many ids are taken as there are bits |
| `IdAllocator.TakenUpdate` | libweston-vendored/src/libweston/id-number-allocator.c:124-192 | setting or clearing one bit changes the taken set by one number |
| `ColorObjects.ColorObject.Init` | libweston-vendored/src/libweston/color.c:139-146 | a new profile or transform holds one reference and the smallest free id, and the buckets double exactly when that was the last free bit |
| `ColorObjects.ColorObject.Ref` | libweston-vendored/src/libweston/color.c:59-68 | one more reference, NULL accepted; the id stays |
| `ColorObjects.ColorObject.Unref` | libweston-vendored/src/libweston/color.c:75-89 | the id is given back exactly with the last reference |
| `ColorObjects.CreateKeepsInvIff` | libweston-vendored/src/libweston/color.c:565-573 | creation keeps live ids distinct and nonzero if and only if fewer than 2^32 - 1 objects are live |
| `ColorObjects.FullPool` | libweston-vendored/src/libweston/id-number-allocator.c:124-153 | with 2^32 - 1 live objects every 32-bit id is taken and the smallest free number is 2^32 |
| `ColorObjects.DropKeepsInv` | libweston-vendored/src/libweston/color.c:540-554 | dropping a reference keeps the taken set equal to 0 and the live ids |
| `ColorObjects.RunKeepsInv` | libweston-vendored/src/libweston/color.c:523-573 | over every run of init, ref and unref: taken is 0 plus the ids of live objects, and those are distinct, nonzero 32-bit numbers |
| `ColorObjects.RunFromFresh` | libweston-vendored/src/libweston/color.c:523-573 | in every run from a fresh generator, the next id is new, nonzero and the smallest not in use |
| `ColorObjects.RefsAreBalance` | libweston-vendored/src/libweston/color.c:523-554 | in every run, an object is live exactly while references from its creation and later calls are left, and holds their number |
| `ColorObjects.IdStays` | libweston-vendored/src/libweston/color.c:523-573 | the id given at creation stays as long as the object lives |
| `ColorObjects.RunWrapsToZero` | libweston-vendored/src/libweston/id-number-allocator.c:124-153 | a run from a fresh generator reaches 2^32 - 1 live objects, and its next object gets the reserved id 0 |
| `ColorObjects.GrowthBound` | libweston-vendored/src/libweston/id-number-allocator.c:103-115 | while fewer than 2^32 - 1 objects are live the buckets stay within 2^28, so the overflow assert holds |
| `ColorObjects.Registry.constructor` | libweston-vendored/src/libweston/id-number-allocator.c:50-68 | no object, and the fresh generator |
| `ColorObjects.Registry.Create` | libweston-vendored/src/libweston/color.c:565-573 | creating an object on the bitmap is the abstract creation step and keeps the bounds for the next one |
| `ColorObjects.Registry.AddRef` | libweston-vendored/src/libweston/color.c:523-533 | taking a reference is the abstract step |
| `ColorObjects.Registry.DropRef` | libweston-vendored/src/libweston/color.c:540-554 | dropping a reference is the abstract step; the last one frees the id in the bitmap |
| `ColorObjects.Replay` | libweston-vendored/src/libweston/color.c:523-573 | every run, carried out with objects on one bitmap generator, ends in the state that the run says |
| `ProfileBuilder.ParamBuilder.constructor` | libweston-vendored/src/libweston/color-profile-param-builder.c:93-107 | starts with nothing set and no error |
| `ProfileBuilder.ParamBuilder.StoreError` | libweston-vendored/src/libweston/color-profile-param-builder.c:122-143 | only the first error code is kept |
| `ProfileBuilder.ParamBuilder.SetPrimaries` | libweston-vendored/src/libweston/color-profile-param-builder.c:286-313 | refines the setter step of the specification; true exactly when it has no error |
| `ProfileBuilder.ParamBuilder.SetPrimariesNamed` | libweston-vendored/src/libweston/color-profile-param-builder.c:332-364 | the same for named primaries, with their gamut |
| `ProfileBuilder.ParamBuilder.SetTfNamed` | libweston-vendored/src/libweston/color-profile-param-builder.c:383-416 | the same for a named transfer function |
| `ProfileBuilder.ParamBuilder.SetTfPower` | libweston-vendored/src/libweston/color-profile-param-builder.c:436-473 | the same for a power curve, with its exponent limits |
| `ProfileBuilder.ParamBuilder.SetLuminance` | libweston-vendored/src/libweston/color-profile-param-builder.c:490-533 | the same for the primary luminances |
| `ProfileBuilder.ParamBuilder.SetTargetPrimaries` | libweston-vendored/src/libweston/color-profile-param-builder.c:549-577 | the same for the target primaries |
| `ProfileBuilder.ParamBuilder.SetTargetPrimariesNamed` | libweston-vendored/src/libweston/color-profile-param-builder.c:593-602 | the same for named target primaries |
| `ProfileBuilder.ParamBuilder.SetTargetLuminance` | libweston-vendored/src/libweston/color-profile-param-builder.c:618-654 | the same for the target luminances |
| `ProfileBuilder.ParamBuilder.SetMaxFALL` | libweston-vendored/src/libweston/color-profile-param-builder.c:669-684 | the same for maxFALL |
| `ProfileBuilder.ParamBuilder.SetMaxCLL` | libweston-vendored/src/libweston/color-profile-param-builder.c:699-714 | the same for maxCLL |
| `ProfileBuilder.ParamBuilder.CompleteParams` | libweston-vendored/src/libweston/color-profile-param-builder.c:848-907 | refines completion, including the PQ maximum luminance |
| `ProfileBuilder.ParamBuilder.ValidateParamsSet` | libweston-vendored/src/libweston/color-profile-param-builder.c:716-728 | reports missing mandatory groups |
| `ProfileBuilder.ParamBuilder.ValidateGamut` | libweston-vendored/src/libweston/color-profile-param-builder.c:208-268 | reports a gamut out of range or with the white point outside |
| `ProfileBuilder.ParamBuilder.ValidatePrimaryLuminances` | libweston-vendored/src/libweston/color-profile-param-builder.c:730-754 | reports primary luminances out of range |
| `ProfileBuilder.ParamBuilder.ValidateTargetLuminances` | libweston-vendored/src/libweston/color-profile-param-builder.c:756-773 | reports target luminances out of range |
| `ProfileBuilder.ParamBuilder.ValidateLightLevels` | libweston-vendored/src/libweston/color-profile-param-builder.c:775-817 | reports light levels outside the target volume or out of order |
| `ProfileBuilder.ParamBuilder.CreateColorProfile` | libweston-vendored/src/libweston/color-profile-param-builder.c:928-969 | refines creation: the first error, or the completed parameters |
| `ProfileBuilder.Build` | libweston-vendored/src/libweston/color-profile-param-builder.c:286-969 | any sequence of setter calls on a new builder followed by creation gives the outcome that the theorems are about |
| `ProfileTheorems.RunKeepsInv` | libweston-vendored/src/libweston/color-profile-param-builder.c:286-714 | what every setter sequence keeps about stored parameters and the group mask |
| `ProfileTheorems.CompletedLuminance` | libweston-vendored/src/libweston/color-profile-param-builder.c:848-907 | completed luminances are ordered, with defaults in range, and targets fall back to the primary ones |
| `ProfileTheorems.ValidIffWellFormed` | libweston-vendored/src/libweston/color-profile-param-builder.c:716-846 | validation finds no error if and only if both mandatory groups are set and the completed parameters are well formed |
| `ProfileTheorems.ReachedIff` | libweston-vendored/src/libweston/color-profile-param-builder.c:286-969 | for every setter sequence, creation reaches the colour manager if and only if every setter succeeded and the completed parameters are well formed, and those are what it gets |
| `ProfileTheorems.ErrIffSomeFails` | libweston-vendored/src/libweston/color-profile-param-builder.c:286-714 | no error is stored exactly when every setter succeeded |
| `ProfileTheorems.FirstFailureDecides` | libweston-vendored/src/libweston/color-profile-param-builder.c:122-143 | the first failing setter decides the error of creation, whatever follows |
| `ProfileTheorems.FailureChangesNothing` | libweston-vendored/src/libweston/color-profile-param-builder.c:286-714 | a failing setter changes no parameter; a succeeding one sets its own group for the first time |
| `ProfileTheorems.OrderIrrelevant` | libweston-vendored/src/libweston/color-profile-param-builder.c:286-714 | every permutation of a successful setter sequence succeeds with the same final state |
| `ProfileArguments.SetterErrorIs` | libweston-vendored/src/libweston/color-profile-param-builder.c:286-714 | the code a setter fails with, from the calls before it: refused by the manager, set before, or arguments out of range, in this order |
| `ProfileArguments.AllSucceedIff` | libweston-vendored/src/libweston/color-profile-param-builder.c:286-714 | all setters succeed if and only if each is acceptable by itself and no two set the same thing |
| `ProfileArguments.ArgumentsStand` | libweston-vendored/src/libweston/color-profile-param-builder.c:286-714 | what reaches the colour manager are the arguments of every call, with the maximum luminance of PQ put 10000 above the minimum |
| `ProfileArguments.DefaultsStand` | libweston-vendored/src/libweston/color-profile-param-builder.c:848-907 | and fixed numbers, or the primary values, for everything no call has set |
| `ProfileArguments.CreationIs` | libweston-vendored/src/libweston/color-profile-param-builder.c:928-969 | the code creation fails with after successful setters, in order, and otherwise the completed parameters |
| `ProfileTheorems.NamedGamutsValid` | libweston-vendored/src/libweston/color-properties.c:130-251 | all named primaries pass the gamut test |
| `ProfileTheorems.NamedGamutsStandard` | libweston-vendored/src/libweston/color-properties.c:130-251 | the chromaticities of the named primaries in numbers |
| `Triangle.AreasCover` | libweston-vendored/src/libweston/color-profile-param-builder.c:177-206 | the three part areas add up to at least the whole area |
| `Triangle.AreaIsShoelace` | libweston-vendored/src/libweston/color-profile-param-builder.c:177-186 | the area is that of the shoelace formula |
| `Triangle.AreasAddUpIffInside` | libweston-vendored/src/libweston/color-profile-param-builder.c:177-206 | equality holds exactly for convex combinations of the corners |
| `Triangle.AcceptsIff` | libweston-vendored/src/libweston/color-profile-param-builder.c:177-206 | the test accepts exactly when the triangle is larger than the precision and the outside area at most half of it |
| `Triangle.InsideIsAccepted` | libweston-vendored/src/libweston/color-profile-param-builder.c:177-206 | every point inside a large enough triangle is accepted |
| `Lut.FindNeighbors` | libweston-vendored/src/libweston/color.c:462-486 | the search loop ends at adjacent elements around the value |
| `Lut.NeighborsBracket` | libweston-vendored/src/libweston/color.c:462-486 | a value within the ends is bracketed by the neighbours, monotone or not |
| `Lut.InverseEvaluate` | libweston-vendored/src/libweston/color.c:500-515 | for a strictly monotone, spaced table the curve takes the result back to the input |
| `Lut.ForwardInverseAscending` | libweston-vendored/src/libweston/color.c:450-515 | the curve at the inverse of y is y, for every real y, past the ends too |
| `Lut.AtIncreasing` | libweston-vendored/src/libweston/color.c:450-515 | the curve of an ascending table is strictly increasing on the whole axis |
| `Lut.RoundTripIffSpaced` | libweston-vendored/src/libweston/color.c:450-515 | for every strictly monotone table, both round trips hold on all reals if and only if no two neighbours are closer than 1e-5 |
| `Lut.InverseInSmallGap` | libweston-vendored/src/libweston/color.c:450-461 | between two elements closer than 1e-5 the inverse is the middle, whatever the value |
| `Power.LawsHoldOfExample` | libweston-vendored/src/libweston/color-operations.c:36-79 | the laws assumed of pow are satisfiable |
| `Curves.InvertedTwice` | libweston-vendored/src/libweston/color-operations.c:306-314 | the parameter inversion is an involution |
| `CurveInverse.LinpowThenPowlinIff` | libweston-vendored/src/libweston/color-operations.c:36-79 | for rising LINPOW channels the inverse undoes the channel on all reals exactly when the power piece does not start below the linear one |
| `CurveInverse.PowlinThenLinpowIff` | libweston-vendored/src/libweston/color-operations.c:36-79 | and is undone by it exactly when the power piece does not start above |
| `CurveInverse.PowlinInverseIff` | libweston-vendored/src/libweston/color-operations.c:68-79 | the same for rising POWLIN channels |
| `CurveInverse.PowlinInverseBackIff` | libweston-vendored/src/libweston/color-operations.c:68-79 | the same for rising POWLIN channels, in the other order |
| `CurveThreshold.ForwardIff` | libweston-vendored/src/libweston/color-operations.c:36-79 | for channels that match but for the cross-over, exactly which inputs LINPOW and then POWLIN give back |
| `CurveThreshold.BackIff` | libweston-vendored/src/libweston/color-operations.c:36-79 | exactly which inputs POWLIN and then LINPOW give back |
| `Srgb.ForwardThenInverseIff` | libweston-vendored/src/libweston/color-properties.c:254-255 | the tabled curve and then its tabled inverse give x back exactly when the magnitude of x is below 12.92 * 0.0031308 or at least 0.04045 |
| `Srgb.InverseThenForwardIff` | libweston-vendored/src/libweston/color-properties.c:254-255 | the other order gives y back exactly when its magnitude is below 0.0031308 or at least the value of the curve at 0.04045 |
| `Srgb.SrgbFails` | libweston-vendored/src/libweston/color-properties.c:254-255 | 0.04044994 does not come back |
| `Srgb.TwelveFifthsApart` | libweston-vendored/src/libweston/color-properties.c:254-255 | what these results ask of pow holds whenever the fifth power of x to the 2.4 is the twelfth power of x |
| `Srgb.ExampleApart` | libweston-vendored/src/libweston/color-properties.c:254-255 | and can be met together with the laws of pow |
| `CurveSigns.InvertLinpowCorrect` | libweston-vendored/src/libweston/color-operations.c:269-317 | an accepted LINPOW inversion is a two-sided inverse on all reals, mirrored negatives included, exactly at exact continuity |
| `CurveSigns.InvertPowlinCorrect` | libweston-vendored/src/libweston/color-operations.c:319-367 | an accepted POWLIN inversion is a two-sided inverse exactly at exact continuity |
| `CurveSigns.LinpowInvertedIff` | libweston-vendored/src/libweston/color-operations.c:292-303 | the channels that are inverted, in numbers: 1e-6 for c, a and g, and 1e-5 for the gap at the cross-over |
| `CurveSigns.PowlinInvertedIff` | libweston-vendored/src/libweston/color-operations.c:342-353 | the same for POWLIN |
| `CurveSigns.AcceptedDropNotUndone` | libweston-vendored/src/libweston/color-operations.c:292-314 | every accepted rising LINPOW channel whose power piece starts below the linear one fails at its cross-over |
| `CurveSigns.DroppingChannelAccepted` | libweston-vendored/src/libweston/color-operations.c:292-314 | there is such a channel: it starts 5e-6 below |
| `CurveSigns.LinpowSigns` | libweston-vendored/src/libweston/color-operations.c:292-300 | for slopes and exponents of any sign, a continuous LINPOW channel is undone on its domain, and undoes its inverse on all reals, exactly when their signs agree, a condition the code does not check |
| `CurveSigns.PowlinSigns` | libweston-vendored/src/libweston/color-operations.c:342-350 | the same for POWLIN, on all reals and on the domain of its inverse |
| `CurveSigns.AcceptedButNotUndone` | libweston-vendored/src/libweston/color-operations.c:292-314 | every continuous LINPOW channel whose signs disagree and that the tests accept is not undone |
| `CurveSigns.FallingChannelAccepted` | libweston-vendored/src/libweston/color-operations.c:292-314 | there is such a channel: 2 - x from 1 on |
| `CurveSigns.FallingChannelFails` | libweston-vendored/src/libweston/color-operations.c:305-316 | its inverse sends the value at x back to 2 - x |
| `CurveSigns.InvertLinpowTwice` | libweston-vendored/src/libweston/color-operations.c:269-367 | a continuous LINPOW channel inverted twice comes back unchanged exactly when no parameter exceeds 1e6 |
| `CurveSigns.InvertPowlinTwice` | libweston-vendored/src/libweston/color-operations.c:269-367 | the same starting from POWLIN |
| `Pq.QuantizerUndoesInverse` | libweston-vendored/src/libweston/color-operations.c:119-153 | on [0,1] the quantizer undoes its inverse |
| `Pq.InverseUndoesQuantizerIff` | libweston-vendored/src/libweston/color-operations.c:119-153 | the other order is a round trip exactly from c1 to the power m2 upwards |
| `Pq.BlackNotUndone` | libweston-vendored/src/libweston/color-operations.c:119-153 | 0 does not come back |
| `Pq.QuantizerInUnit` | libweston-vendored/src/libweston/color-operations.c:119-135 | the quantizer maps [0,1] into [0,1] and its divisor never vanishes there |
| `Pq.RootOfInverse` | libweston-vendored/src/libweston/color-operations.c:137-153 | the inverse maps [0,1] into [0,1], never below c1 to the power m2 |
| `ColorCurve.SampleParametric` | libweston-vendored/src/libweston/color-operations.c:49-117 | every element is the clamped channel-wise value of the old input, also in place |
| `ColorCurve.SamplePq` | libweston-vendored/src/libweston/color-operations.c:155-182 | the same for the quantizer in both directions |
| `ColorCurve.Sample` | libweston-vendored/src/libweston/color-operations.c:197-236 | the same for every curve that can be sampled, with named transfer functions replaced by their parameters |
| `CurveValues.PureValues` | libweston-vendored/src/libweston/color-properties.c:278-312 | BT.1886, gamma 2.2 and gamma 2.8 give the limited input to the power 2.4, 2.2 and 2.8, and backwards to the reciprocal |
| `CurveValues.PowerValues` | libweston-vendored/src/libweston/color.c:269-285 | a power law with a parameter is odd and not limited |
| `CurveValues.SrgbValues` | libweston-vendored/src/libweston/color-properties.c:323-344 | sRGB in the numbers of its standard, in both directions, limited or odd |
| `CurveValues.PqValues` | libweston-vendored/src/libweston/color-operations.c:119-182 | the perceptual quantizer in the numbers of its standard, in both directions, limited |
| `CurveValues.ParametricValues` | libweston-vendored/src/libweston/color-operations.c:36-95 | parametric curves: linear below the cross-over, the power piece from there on, odd, limited when clamped |
| `ColorCurve.ParametricInverse` | libweston-vendored/src/libweston/color-operations.c:369-399 | succeeds exactly when all three channels invert, and swaps LINPOW and POWLIN |
| `ColorCurve.CreateInverse` | libweston-vendored/src/libweston/color-operations.c:409-445 | refines the inversion of each curve type; look-up tables are refused |
| `ColorCurve.ParametricRoundTripIff` | libweston-vendored/src/libweston/color-operations.c:369-399 | for continuous channels either order gives a colour back if and only if the curve is not clamped, or the colour is in the unit cube and at most what the second curve has at 1 |
| `ColorCurve.ClampedInverseIff` | libweston-vendored/src/libweston/color-operations.c:375-378 | the assumption about clamped curves, decided: a clamped curve is undone on the unit cube if and only if it is at most 1 at 1, and undoes its inverse if and only if it is at least 1 there |
| `ColorCurve.DoublingNotUndone` | libweston-vendored/src/libweston/color-operations.c:375-399 | a clamped curve that is inverted and gives white back as half of it |
| `CurveRange.LinpowGrows` | libweston-vendored/src/libweston/color-operations.c:36-47 | a continuous LINPOW channel grows on all reals |
| `CurveRange.PowlinGrows` | libweston-vendored/src/libweston/color-operations.c:68-79 | a continuous POWLIN channel grows on all reals |
| `CurveRange.ClampedPairIff` | libweston-vendored/src/libweston/color-operations.c:49-66 | with clamped inputs, exactly the part of [0,1] comes back that the curve does not take above 1 |
| `ColorCurve.EnumeratedRoundTripIff` | libweston-vendored/src/libweston/color.c:259-296 | switching the direction of a named transfer function gives a colour back if and only if it is recoverable, for every colour and all seven functions that have a curve |
| `ColorCurve.SrgbRoundTripIff` | libweston-vendored/src/libweston/color-properties.c:323-344 | for the clamped and the extended sRGB pair a colour comes back if and only if each channel meets the condition of its direction, and lies in [0,1] when clamped |
| `ColorCurve.SrgbChanOkIff` | libweston-vendored/src/libweston/color-properties.c:254-255 | that condition in numbers, for both directions |
| `ColorCurve.CreatedInverseUndoesIff` | libweston-vendored/src/libweston/color-operations.c:409-445 | a created inverse gives a colour back if and only if it is recoverable, for the identity, every named transfer function with a curve, and continuous parametric curves |
| `ColorCurve.CreatedInverseTwice` | libweston-vendored/src/libweston/color-operations.c:409-445 | inverting the inverse gives the curve itself exactly when no parameter is too large |
| `ColorCurve.SingleCurveIsPipeline` | libweston-vendored/src/libweston/color-operations.c:245-267 | the single curve does what the three-step pipeline does; it is refused exactly to unusable steps, a matrix, or two curves |
| `Lu.FindPivot` | libweston-vendored/src/shared/matrix.c:264-273 | the first of the largest remaining elements of the column |
| `Lu.SwapRows` | libweston-vendored/src/shared/matrix.c:251-262 | exchanges exactly two rows |
| `Lu.SwapKeeps` | libweston-vendored/src/shared/matrix.c:288-293 | exchanging rows together with the permutation keeps what is decomposed |
| `Lu.EliminateKeeps` | libweston-vendored/src/shared/matrix.c:299-304 | eliminating a column keeps the product equal to the permuted matrix |
| `Lu.SecondPivotIs` | libweston-vendored/src/shared/matrix.c:288-297 | the second pivot is the largest minor over the first pivot |
| `Lu.ThirdPivotIs` | libweston-vendored/src/shared/matrix.c:288-297 | the third pivot is the determinant over that minor |
| `Lu.Eliminate` | libweston-vendored/src/shared/matrix.c:299-304 | reduces every row below the pivot and no other |
| `Lu.Decompose` | libweston-vendored/src/shared/matrix.c:275-308 | succeeds if and only if three numbers of the matrix reach the threshold: its largest first-column element, the largest minor with that row over it, and the determinant over that minor; then the rows in the order p are the product of the triangles |
| `Lu.InverseTransform` | libweston-vendored/src/shared/matrix.c:310-341 | the result is sent to the given vector by the matrix |
| `Lu.Invert` | libweston-vendored/src/shared/matrix.c:354-369 | succeeds if and only if those three pivots reach 1e-9; a result is an inverse on both sides; a refused matrix sends some vector with a component 1 to within 1e-9 of zero |
| `Lu.DiagonalPivots` | libweston-vendored/src/shared/matrix.c:295-297 | a diagonal matrix is accepted exactly when each element reaches the threshold |
| `Lu.InvertibleButRefused` | libweston-vendored/src/shared/matrix.c:295-297 | a family of matrices that have an inverse and are refused |
| `Lu.NearlySingularButAccepted` | libweston-vendored/src/shared/matrix.c:295-297 | a family of nearly singular matrices that are accepted |
| `WhitePoint.NormalizedPrimaryMatrix` | libweston-vendored/src/libweston/color.c:1035-1072 | refused if and only if the white point is low or a pivot of the primary matrix is too small; a result is the scaled primaries or their inverse, and the inverse has infinite elements exactly when the white point is in line with two primaries |
| `WhitePoint.ZeroScaleIffInLine` | libweston-vendored/src/libweston/color.c:1056-1068 | a scale factor of a primary is zero exactly when the white point is in line with the other two |
| `WhitePoint.HalfwayWhiteInLine` | libweston-vendored/src/libweston/color.c:1056-1068 | a gamut that the profile builder accepts and the inversion passes has its white point in line with two primaries |
| `WhitePoint.NpmSendsWhite` | libweston-vendored/src/libweston/color.c:1035-1072 | full drive gives the white point's XYZ |
| `WhitePoint.NpmKeepsPrimaries` | libweston-vendored/src/libweston/color.c:1035-1072 | each channel alone has the chromaticity of its primary |
| `WhitePoint.NpmDirectionsInvert` | libweston-vendored/src/libweston/color.c:1060-1068 | the two directions are inverse matrices |
| `WhitePoint.BradfordAdaptation` | libweston-vendored/src/libweston/color.c:1082-1104 | gives an adaptation matrix unless a divisor is zero |
| `WhitePoint.BradfordNotNearlySingular` | libweston-vendored/src/libweston/color.c:1085-1096 | the unchecked inversion of the constant matrix cannot fail |
| `WhitePoint.AdaptationSendsWhite` | libweston-vendored/src/libweston/color.c:1082-1104 | the source white becomes the destination white |
| `WhitePoint.AdaptationScalesCones` | libweston-vendored/src/libweston/color.c:1082-1104 | of every colour, each of the three Bradford cone responses, given in numbers, is scaled by the ratio of the responses to the two whites |
| `WhitePoint.AdaptationUnique` | libweston-vendored/src/libweston/color.c:1082-1104 | two white points determine the matrix |
| `WhitePoint.AdaptationsCompose` | libweston-vendored/src/libweston/color.c:1082-1104 | adapting a to b and then b to c is adapting a to c |
| `WhitePoint.AdaptationToItself` | libweston-vendored/src/libweston/color.c:1082-1104 | adapting to the same white is the identity |
| `WhitePoint.AdaptationBack` | libweston-vendored/src/libweston/color.c:1082-1104 | adapting back is the inverse matrix |
| `PaintNodes.Scene.Copy` | libweston-vendored/src/libweston/color.c:780-787 | the node takes the state and one reference, and references stay balanced |
| `PaintNodes.Scene.Fini` | libweston-vendored/src/libweston/color.c:789-796 | the node loses its state and its reference, and references stay balanced |
| `PaintNodes.Scene.EnsureColorTransform` | libweston-vendored/src/libweston/color.c:808-844 | all nodes of the surface and output get the same state, no other node changes, the count rises by the number of those nodes less the caller's own reference |
| `PaintNodes.Scene.CreateNode` | libweston-vendored/src/libweston/compositor.c:516-545 | a new node takes over the state of its surface and output, with a reference |
| `PaintNodes.Scene.DestroyNode` | libweston-vendored/src/libweston/compositor.c:605-626 | removing a node returns its reference |
| `PaintNodes.Scene.ClearTransforms` | libweston-vendored/src/libweston/compositor.c:1510-1514 | a profile change is the abstract step on the nodes and returns their references |
| `PaintNodes.Scene.constructor` | libweston-vendored/src/libweston/compositor.c:516-545 | no node and no reference |
| `PaintNodes.Scene.Acquire` | libweston-vendored/src/libweston/color.c:821-828 | a reference handed out by the colour manager is accounted for |
| `PaintNodes.Scene.Release` | libweston-vendored/src/libweston/color.c:540-554 | a reference held elsewhere is given back |
| `PaintNodes.Replay` | libweston-vendored/src/libweston/color.c:780-844 | every run, carried out from an empty scene, ends in the node states that the run says with all references accounted for |
| `PaintNodes.StepKeepsSound` | libweston-vendored/src/libweston/color.c:808-844 | every operation keeps equal states for equal surface and output, and no transform in an invalid state |
| `PaintNodes.RunKeepsSound` | libweston-vendored/src/libweston/compositor.c:528-541 | the same over every run of create, destroy, ensure and profile changes |
| `PaintNodes.RunStaysSettled` | libweston-vendored/src/libweston/color.c:821-826 | a valid state stays the same in all nodes of a pair until a profile of the pair changes |
| `PaintNodes.AssignedHolds` | libweston-vendored/src/libweston/color.c:830-839 | each node the state goes to holds the transform once more |
| `PaintNodes.HeldIsAlive` | libweston-vendored/src/libweston/color.c:780-796 | a transform held by a node has references left |
| `PaintHistory.SurfaceProfileClears` | libweston-vendored/src/libweston/compositor.c:1510-1514 | a profile change of a surface empties every node of it and changes no other |
| `PaintHistory.OutputProfileClears` | libweston-vendored/src/libweston/compositor.c:8337-8341 | the same for an output |
| `PaintHistory.RunIsCached` | libweston-vendored/src/libweston/compositor.c:528-541 | every run: the states copied from node to node are those of one cache per surface and output |
| `PaintHistory.CachedIffAnswered` | libweston-vendored/src/libweston/color.c:808-844 | a valid state is cached if and only if the colour manager, asked for the pair, answered it, and since then the pair has always had a node and no profile of it has changed |
| `PaintHistory.HeldIffAnswered` | libweston-vendored/src/libweston/color.c:808-844 | the same of every node |
| `Crc8.Compute` | test-client/qdwin-marker-client.c:68-78 | the nested loops compute the CRC of the bytes |
| `Crc8.CrcLinear` | test-client/qdwin-marker-client.c:68-78 | the CRC of an XOR is the XOR of the CRCs, at every length |
| `Crc8.ResidueZeroIff` | test-client/qdwin-marker-client.c:97-97 | appending a byte gives residue 0 exactly when it is the CRC |
| `Crc8.CodewordParityEven` | test-client/qdwin-marker-client.c:97-97 | message plus CRC has an even number of bits set |
| `Crc8.DetectedIff` | test-client/qdwin-marker-client.c:68-78 | an error pattern is detected exactly when its own CRC is not 0 |
| `Crc8.OddErrorsDetected` | test-client/qdwin-marker-client.c:68-78 | every odd number of flipped bits is detected |
| `Crc8.ByteErrorDetected` | test-client/qdwin-marker-client.c:68-78 | every change of one byte is detected |
| `Crc8.BurstDetected` | test-client/qdwin-marker-client.c:68-78 | every burst of up to eight bits is detected, also across two bytes |
| `CrcErrors.ReturnsIff` | test-client/qdwin-marker-client.c:68-78 | the order of a bit step is 127 |
| `CrcErrors.TwoBitsDetectedIff` | test-client/qdwin-marker-client.c:68-78 | two flipped bits are detected exactly when their distance is no multiple of 127, in codewords of any length |
| `CrcErrors.ExchangeDetectedIff` | test-client/qdwin-marker-client.c:68-78 | two exchanged neighbouring bytes are detected exactly when their difference is neither 0 nor 0xFD |
| `CrcErrors.ExchangeMissed` | test-client/qdwin-marker-client.c:68-78 | an exchange that is not detected |
| `CrcErrors.CheckValue` | test-client/qdwin-marker-client.c:68-78 | the checksum of 1, 2 is 0x1B |
| `Marker.PackPayload` | test-client/qdwin-marker-client.c:81-98 | the array holds the payload of the fields |
| `Marker.UnpackPayload` | test-client/qdwin-marker-client.c:81-98 | decoding the payload gives all fields back, negative coordinates included |
| `Marker.PayloadLayout` | test-client/qdwin-marker-client.c:81-98 | which byte of the payload holds what |
| `Marker.TimingAlternates` | test-client/qdwin-marker-client.c:103-109 | the timing row and column start dark in the corner and alternate |
| `Marker.DataCellIs` | test-client/qdwin-marker-client.c:110-126 | which payload bit, or padding bit, every other cell shows |
| `Marker.BuildCells` | test-client/qdwin-marker-client.c:101-126 | every cell is its timing or data cell |
| `Marker.ReadPayloadIs` | test-client/qdwin-marker-client.c:101-126 | reading the grid row by row gives all payload bytes |
| `Marker.GridDeterminesFields` | test-client/qdwin-marker-client.c:81-126 | the grid determines every field, so different fields give different grids |
| `Marker.WrongByteRejected` | test-client/qdwin-marker-client.c:81-98 | a payload with one wrong byte is not accepted |
| `Marker.TwoWrongBitsAcceptedIff` | test-client/qdwin-marker-client.c:81-98 | a payload with two wrong bits is accepted exactly when they are 127 apart and behind the tag |
| `Fifo.UnlinkFromRing` | libweston-vendored/src/libweston/fifo.c:191-197 | removing a link from an intrusive ring leaves the ring of the others |
| `Fifo.LinkIntoRing` | libweston-vendored/src/libweston/fifo.c:216-219 | inserting behind the head gives the longer ring |
| `Fifo.Compositor.ClearBarrier` | libweston-vendored/src/libweston/fifo.c:191-197 | flag and link of one surface are cleared, all other rings stay |
| `Fifo.Compositor.SetBarrier` | libweston-vendored/src/libweston/fifo.c:199-221 | the surface is on its current output's ring and no other, or on none without an output |
| `Fifo.Compositor.ClearBarriers` | libweston-vendored/src/libweston/fifo.c:223-232 | the output's ring is empty, precisely its surfaces are cleared, other rings stay |
| `Fifo.Compositor.HasBarriers` | libweston-vendored/src/libweston/fifo.c:234-238 | true exactly when some surface is on the ring |
| `Fifo.Compositor.constructor` | libweston-vendored/src/libweston/fifo.c:191-232 | no rings and no flags |
| `Fifo.Compositor.AddOutput` | libweston-vendored/src/libweston/compositor.c:8579 | a new output has an empty ring, and no other ring changes |
| `Fifo.Compositor.AddSurface` | libweston-vendored/src/libweston/compositor.c:1184 | a new surface has a cleared flag and is on no ring |
| `Fifo.Compositor.Replay` | libweston-vendored/src/libweston/fifo.c:191-232 | every run, carried out on the pointers and flags, ends in the lists that the run says |
| `Fifo.RunListsValid` | libweston-vendored/src/libweston/fifo.c:191-232 | over every run of set, clear and output changes each surface is at most once on at most one list |
| `Fifo.ListedIffPending` | libweston-vendored/src/libweston/fifo.c:191-232 | a surface is on a list exactly when its last set went there and was not cleared since |
| `Fifo.OutputIsLastPlace` | libweston-vendored/src/libweston/fifo.c:199-221 | a surface is on the output its last move took it to |
| `Fifo.HeldBackIffPending` | libweston-vendored/src/libweston/fifo.c:240-269 | in every run, a waiting state is held back if and only if a barrier of its surface is pending and the surface is on an output, visible and not synchronized |
| `Fifo.ClearedStatesReady` | libweston-vendored/src/libweston/fifo.c:240-269 | clearing an output makes every state waiting on one of its surfaces ready and leaves other lists alone |
| `ForwardLine.Escape` | test-client/qdwin-bystander.c:220-251 | for every source and size, writes in bounds the escape of a prefix and a terminator |
| `ForwardLine.TakenIsMaximal` | test-client/qdwin-bystander.c:220-251 | the prefix is cut at an escape boundary and only when no room for an escape is left |
| `ForwardLine.UnescapeEscape` | test-client/qdwin-bystander.c:220-251 | unescaping gives the source back, control bytes shown as a question mark |
| `ForwardLine.EscapeTable` | test-client/qdwin-bystander.c:220-251 | how every byte is written, in ASCII codes |
| `ForwardLine.EscapedIsPrintable` | test-client/qdwin-bystander.c:220-251 | no control byte or newline is left |
| `ForwardLine.LineHasTwoFields` | test-client/qdwin-bystander.c:308-313 | a quoted-field parser finds exactly the two intended fields |
| `ForwardLine.LineIsOneLine` | test-client/qdwin-bystander.c:308-313 | the only newline is the last byte |
| `SerialSweep.Seat.SetSelection` | libweston-vendored/src/libweston/data-device.c:1139-1176 | refines the request step: a stale serial is ignored while a source is set |
| `SerialSweep.Seat.Sweep` | test-client/qdwin-test-clipboard-emit.c:541-549 | after the three requests the third source is selected, from every state |
| `SerialSweep.SweepWins` | qdwin/qdwin-logic.c:351-358 | the same about the wrap-around stale test for every current serial |
| `SerialSweep.TwoAlwaysWinIff` | qdwin/qdwin-logic.c:351-358 | two requests would always win exactly when their serials are half the ring apart, up to one |
| `SerialSweep.AcceptedIff` | qdwin/qdwin-logic.c:351-358 | while a source is set, a serial is accepted exactly over the 2^31 + 1 serials before it on the ring |
| `SerialSweep.SweepAccepts` | test-client/qdwin-test-clipboard-emit.c:541-549 | the exact ranges of current serials that each of the three requests gets past |

## Left out

- Floating point: rounding, infinities and NaN. A quotient by zero in the white
  point code is the outcome `NotFinite`.
- Allocation failure: allocation always succeeds.
- Error message texts of the profile builder: only the first code and the
  has-errors flag are kept.
- Wayland resources, listeners, registries, the event loop, sockets and shared
  memory: `recv` and `accept` are modelled by what they answer.
- Descriptor numbers: in `QdniRun` a connection has an identity of its own, so
  the reuse of a descriptor number by a later connection is not modelled there.
- Byte order: the QDNI header is read as on a little-endian host.
- Marker.BuildCells: the pixels of the cells and the camera side are left out.
- ForwardLine.LineHasTwoFields: the fixed texts and decimal numbers between the
  quoted fields are parameters without quotes.
- Fifo.RunListsValid: destruction of surfaces and outputs is left out.
- Fifo.ClearedStatesReady: the repaint and commit code that asks for readiness
  is left out.
- ColorCurve.SingleCurveIsPipeline: what a look-up table or a cLUT computes is a
  parameter.
- Lu.InverseTransform: the two rounds of back substitution are written out
  instead of looping.
- PaintNodes.Scene.EnsureColorTransform: what the colour manager answers is a
  parameter; a failing manager is taken to leave no transform behind.
- PaintNodes.Scene.CreateNode: nodes are kept in one list by surface and output;
  views, planes and damage are left out.
- qdwin.c beyond the input drain loop, its nested-proxy, locker and stream-token
  protocols.
- Access predicates and enum mappers of qdwin-logic.c: single-branch tables.
- clipboard.c, bindings.c, animation.c and the thin protocol handlers.
- The bystander's command FIFO.
