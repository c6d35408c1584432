# Verified model of the codecs, the text encoder and the echo canceller

This project models four pieces of signal and data coding in Dafny and proves what they promise.

* **SQLite text encoder** (`SqliteEncode`): binary data as text without NUL or quote. The offset
  search, the size bound (a pigeonhole over the 254 allowed offsets), the round trip, exactly which
  texts are encodings, and decoding in place.
* **G.722 sub-band ADPCM** (`G722*`): predictor and scale factors of a band, quantisers, bit packing
  across calls, the two filter banks, and the encoder and decoder as calls on a state. The central
  results are that both directions stay in lockstep from the transmitted codes alone, that the
  predictors are stable and every update is exact on every run, of the encoder on any samples and of
  the decoder on any bytes, and how close the decoded signal is: in either band, and through both filter
  banks from end to end.
* **GSM 06.10 full-rate speech** (`Gsm*`): offset filter, LPC analysis, lattice filters, long-term
  predictor, excitation coder, the three packings, and the encoder and decoder as calls on a state.
  The central results are the lockstep of both histories over any number of frames, exact inversion
  of the lattice, that the reflection coefficients solve the normal equations of linear prediction,
  freedom from overflow from the first filter to the last, that in every packing the decoder receives
  exactly the frames that were sent, and that nothing but the residual is approximated on the way.
* **Echo canceller** (`Echo*`): DC filter, both transversal filters over their rings, the adaption of the
  background taps, levels, double-talk hangover and the transfer of the background to the foreground,
  as a state machine over runs of updates and flushes. The central results are the law of
  the adaption, what the running power is, and how long a detection freezes the foreground, with a run
  that shows the bound to be tight.

`FixedPoint` and `Bits` hold the arithmetic all of them share: sixteen- and 32-bit ranges, wrapping
casts, saturating operations, shifts, and numbers as bit sequences.

Every routine appears twice: as a specification function on values, about which the properties are
proved, and as a method with the loops, arrays and fields of the source, which is proved to compute
that function. Integers are unbounded in Dafny, so every cast of the source is written out, and "fits"
in the table means that a cast, shift or sum is proved to lose nothing.

Where code and documentation disagree, the model follows the code:

* jni/sqlite3/encode.c:73 says that a quote becomes 0x01 0x03; the code writes 0x01 0x28, as line 30
  says. Line 170 promises a return of -1 for malformed text, which no path produces;
  `SqliteEncode.EncodingIff` says which texts are not malformed.
* jni/sqlite3/encode.c:47-56 says that the offset is added when encoding; the code subtracts it there and
  adds it when decoding.
* jni/spandsp/g722.c:580 says that the high bits are left zero in the 8 kHz mode; the code sets both.
* The G.722 bit packer can be two codes ahead of the unpacker, not one: just after a byte boundary the
  packer still holds the newest code and the unpacker has not yet given out the one before.
* The GSM lattice filters undo each other for every coefficient except -32768, which the conversion
  from log area ratios never produces; `GsmShortTerm.StageInverts` is the exact condition.

## Model

| member | source | states |
|---|---|---|
| `SqliteEncode.BestOffset` | jni/sqlite3/encode.c:136-146 | the offset is allowed (neither 0 nor 0x27) and no allowed offset needs fewer escapes |
| `SqliteEncode.RoundTrip` | jni/sqlite3/encode.c:123-187 | decoding the encoding of any byte string, the empty one included, gives it back, whatever follows the terminator in the buffer |
| `SqliteEncode.DecoderAddsOffset` | jni/sqlite3/encode.c:175-187 | every byte of a text without escapes stands for itself plus the offset in front, modulo 256 |
| `SqliteEncode.EncodingIsClean` | jni/sqlite3/encode.c:103-107 | the text holds no 0x00 and no 0x27 |
| `SqliteEncode.BestOffsetIsCheap` | jni/sqlite3/encode.c:136-146 | some allowed offset escapes at most 3n/254 of n bytes, by counting over all 254 offsets, so it is always below n and `e` is always assigned |
| `SqliteEncode.EncodingFits` | jni/sqlite3/encode.c:110-114 | the text with its terminator fits 2 + 257n/254 bytes, and its length is n + m + 1 |
| `SqliteEncode.EncodingIsShortest` | jni/sqlite3/encode.c:89-101 | no allowed offset gives a shorter text |
| `SqliteEncode.EncodingIff` | jni/sqlite3/encode.c:123-170 | a text is an encoding of some byte string if and only if it is well formed: no raw special byte, no escape pair but the three, nothing behind the terminator, and the offset that is best for the decoded bytes; on exactly the other texts the promised failure return would be due |
| `SqliteEncode.CanonicalIsBody` | jni/sqlite3/encode.c:175-187 | encoding the bytes that a canonical tail decodes to, with the same offset, gives the tail back |
| `SqliteEncode.EncodingIffRoundTrip` | jni/sqlite3/encode.c:168-187 | a text is well formed if and only if decoding and encoding again gives it back |
| `SqliteEncode.MalformedTextIsAccepted` | jni/sqlite3/encode.c:168-170 | one text that is not well formed, for its escape pair, and is decoded all the same |
| `SqliteEncode.EscapesFromCounts` | jni/sqlite3/encode.c:140 | the sum of three histogram entries is the number of escapes an offset needs |
| `SqliteEncode.ZeroEscapesStaysBest` | jni/sqlite3/encode.c:144 | stopping the search at the first offset without escapes does not change its answer |
| `SqliteEncode.Histogram` | jni/sqlite3/encode.c:134-135 | the count array holds the number of occurrences of every byte value |
| `SqliteEncode.FindOffset` | jni/sqlite3/encode.c:136-146 | the loop ends with the first offset of fewest escapes and with their number, although `e` starts uninitialised |
| `SqliteEncode.WriteText` | jni/sqlite3/encode.c:150-162 | the output loop writes offset, body and terminator, never beyond n + m + 1, which the final assert demands |
| `SqliteEncode.EncodeBinary` | jni/sqlite3/encode.c:123-163 | the routine writes the specified text, or only returns its length for a null output |
| `SqliteEncode.DecodeBinary` | jni/sqlite3/encode.c:175-187 | the routine writes the decoded bytes even when both buffers are the same, because the write index stays behind the read index |
| `G722Band.SecondPole` | jni/spandsp/g722.c:204-213 | the second pole coefficient ends within 12288 |
| `G722Band.FirstPole` | jni/spandsp/g722.c:216-222 | the first pole coefficient ends within 15360 less the second |
| `G722Band.Block4IsStable` | jni/spandsp/g722.c:203-222 | from whatever state, an update lands inside the stability limits |
| `G722Band.SecondPoleIsExact` | jni/spandsp/g722.c:204-213 | inside the limits the cast in the second pole update loses nothing |
| `G722Band.FirstPoleIsExact` | jni/spandsp/g722.c:216-222 | inside the limits the first pole update neither casts nor saturates |
| `G722Band.ZeroUpdateIsExact` | jni/spandsp/g722.c:244-246 | the saturating addition that updates a zero coefficient never saturates, for any operands |
| `G722Band.PredictionIsExact` | jni/spandsp/g722.c:224-229 | both products of the pole section fit sixteen bits |
| `G722Band.ScaledTapIs` | jni/spandsp/g722.c:224-229 | a filter tap is the product of its Q14 coefficient with the sample; only from half scale on is the doubled sample limited |
| `G722Band.Block4AddsPoles` | jni/spandsp/g722.c:198-234 | the reconstructed sample is prediction plus difference; each pole coefficient meets its own reconstructed sample, and the new prediction is the limited sum of pole and zero section |
| `G722Band.Block4AddsHalfScalePoles` | jni/spandsp/g722.c:224-229 | the same below half scale, where both products are those of the Q14 coefficients |
| `G722Band.Block4AddsZeros` | jni/spandsp/g722.c:236-250 | the zero section is the limited sum of six explicit products, the first coefficient with the new difference and the others with the five before it |
| `G722Band.Block4Delays` | jni/spandsp/g722.c:198-250 | the differences move down the delay line by one, and the partial reconstructions too |
| `G722Band.Block4IsExact` | jni/spandsp/g722.c:185-255 | inside the limits every cast of the predictor update is lossless, no coefficient update saturates, and the zero section sum fits 32 bits; the second pole stays within its limit |
| `G722Band.LogsAgree` | jni/spandsp/g722.c:365-371 | clamping after the cast, as the encoder does, equals clamping before it, as the decoder does |
| `G722Band.ScaleIsStep` | jni/spandsp/g722.c:374-377 | no step size wraps in its cast, and it is the table entry shifted by the octave |
| `G722Band.ScaleIsMonotone` | jni/spandsp/g722.c:374-377 | the step size grows with its logarithm, through every wrap of the 32-entry table |
| `G722Band.IlbIsExponential` | jni/spandsp/g722.c:126-136 | entry i of the 32-entry table is 2 to the power of 11 + i/32, rounded to the nearest integer |
| `G722Band.ScaleRange` | jni/spandsp/g722.c:363-377 | step sizes stay in 32 to 16384 and 8 to 16384 |
| `G722Band.InitialScales` | jni/spandsp/g722.c:459-460 | the reset step sizes 32 and 8 are the table values for logarithm 0 |
| `G722Band.BandState.constructor` | jni/spandsp/g722.c:459-460 | a fresh band is the reset band |
| `G722Band.BandState.UpdatePoles` | jni/spandsp/g722.c:198-234 | in-place pole update equals `SecondPole`, `FirstPole` and `PolePrediction` of the old fields, although each reads fields that the others overwrite; `Block4AddsPoles` says what they add up to |
| `G722Band.BandState.UpdateZeros` | jni/spandsp/g722.c:236-250 | coefficients, delay line and sum come out right although one downward loop overwrites all three; `Block4AddsZeros` writes the sum out |
| `G722Band.BandState.Update` | jni/spandsp/g722.c:185-255 | in-place update equals `Block4`, for which stability, exactness and the two prediction sums are proved |
| `G722Quantiser.Level` | jni/spandsp/g722.c:546-553 | the search gives the first decision level above the magnitude, or 30 for overload |
| `G722Quantiser.LowCode` | jni/spandsp/g722.c:138-152 | no code below 4 is ever produced |
| `G722Quantiser.ValueInCell` | jni/spandsp/g722.c:82-124 | at all three rates the reconstruction value of a code lies between the decision levels of the codes that share its transmitted bits |
| `G722Quantiser.ValueIsCentral` | jni/spandsp/g722.c:82-124 | within its cell the value is in the middle: the mean of both decision levels at eight bits to the nearest eighth, and exactly the level that the dropped bits would have decided at seven and six |
| `G722Quantiser.DifferenceError` | jni/spandsp/g722.c:353-357 | outside overload the decoded difference is within one decision interval of the encoder's difference |
| `G722Quantiser.SampleError` | jni/spandsp/g722.c:542-559 | the decoded sample is within the same distance of the encoded one, through both the saturating subtraction and the fifteen-bit limiter |
| `G722Quantiser.HighSampleError` | jni/spandsp/g722.c:585-596 | one sample of the high band inside its inner interval is decoded within its one decision level, through both the saturating subtraction and the limiter; `StreamHighError` carries it to streams |
| `G722Quantiser.HighLevelIsMean` | jni/spandsp/g722.c:589-591 | the decision level of the high band is half way between its two values |
| `G722Packing.PackBits` | jni/spandsp/g722.c:617-628 | packing loses no bit, and between codes the buffer holds at most seven bits |
| `G722Packing.UnpackBits` | jni/spandsp/g722.c:315-326 | unpacking loses no bit, and between codes the buffer holds at most seven bits |
| `G722Packing.UnpackedIsPrefix` | jni/spandsp/g722.c:313-330 | the codes unpacked are always a prefix of the codes packed; what is missing is exactly in the two buffers |
| `G722Packing.HeldBack` | jni/spandsp/g722.c:313-330 | one code is held back, none at the start, and two if and only if the packer has just passed a byte boundary |
| `G722Packing.TwoAreHeldBack` | jni/spandsp/g722.c:313-330 | five six-bit codes give back only three: one code is not the most that is held back |
| `G722Packing.PackAppend` | jni/spandsp/g722.c:617-628 | packing in several calls is packing the concatenation |
| `G722Packing.UnpackAppend` | jni/spandsp/g722.c:313-326 | unpacking a stream cut anywhere gives the codes of the whole stream |
| `G722Codec.EncoderInvariant` | jni/spandsp/g722.c:506-616 | over every run and at every rate both predictors stay inside their limits, both logarithms in their ranges, and both step sizes equal their table values |
| `G722Codec.DecoderInvariant` | jni/spandsp/g722.c:332-407 | the same over every run of the decoder, whatever bytes it is given, at every rate and in both modes |
| `G722Codec.ReachableScales` | jni/spandsp/g722.c:363-377 | in every reachable state the step sizes lie in 32 to 16384 and 8 to 16384 |
| `G722Codec.DecoderIsExact` | jni/spandsp/g722.c:332-407 | on every byte stream and at every code of it: the difference and the logarithm fit sixteen bits, the step size is its table value without wrap, and the predictor update loses nothing |
| `G722Codec.DelayLineIsHistory` | jni/spandsp/g722.c:236-250 | in every decoder run on any bytes each delay line holds the latest differences, newest first |
| `G722Codec.DecoderPredicts` | jni/spandsp/g722.c:198-255 | after every code of every decoder run both bands predict from explicit sums over the six latest differences and the two latest reconstructed samples |
| `G722Codec.EncoderIsExact` | jni/spandsp/g722.c:542-613 | the same at every sample of every encoder run, with the bits that the code carries |
| `G722Codec.DecodedAreLimited` | jni/spandsp/g722.c:356-361 | on every byte stream both decoded band samples are fifteen-bit numbers |
| `G722Codec.ResetIsReachable` | jni/spandsp/g722.c:458-460 | a fresh coder satisfies the invariant |
| `G722Codec.CodesFitRate` | jni/spandsp/g722.c:578-615 | every code fits the bits of its rate |
| `G722Codec.CodeLayout` | jni/spandsp/g722.c:578-615 | the code word has the high band's two bits on top and the upper bits of the low band's six below; in the 8 kHz mode both high bits are set |
| `G722Codec.LowWeightByLevel` | jni/spandsp/g722.c:560-568 | the weight that adapts the low band's logarithm, by quantiser level and equal on both sides of zero |
| `G722Codec.LowWeightGrows` | jni/spandsp/g722.c:560-568 | a larger difference never lowers the weight |
| `G722Codec.HighWeightByLevel` | jni/spandsp/g722.c:585-605 | in the high band a difference inside the decision level lowers the logarithm by 214, any other raises it by 798 |
| `G722Codec.FieldsSurvive` | jni/spandsp/g722.c:332-353 | after the shift that drops low bits, the decoder reads back the bits the encoder adapted from |
| `G722Codec.LowLockstep` | jni/spandsp/g722.c:363-379 | one code takes the decoder's low band to the encoder's |
| `G722Codec.HighLockstep` | jni/spandsp/g722.c:390-406 | one code takes the decoder's high band to the encoder's |
| `G722Codec.Lockstep` | jni/spandsp/g722.c:332-407 | after any number of codes, at all three rates, both decoder bands equal the encoder bands in every field |
| `G722Codec.MixedModeLockstep` | jni/spandsp/g722.c:381-407 | the low bands stay equal even when only one side runs in the 8 kHz mode |
| `G722Codec.StreamError` | jni/spandsp/g722.c:542-559 | in any stream, whenever the quantiser is not overloaded, the decoded low-band sample is within the chosen decision interval |
| `G722Codec.StreamHighError` | jni/spandsp/g722.c:381-396 | in any stream, whenever the high-band quantiser is not overloaded, the decoded high-band sample is within its decision level of the encoder's |
| `G722Qmf.DotProduct` | jni/spandsp/vector_int.c:253-259 | the accumulating loop gives `Dot`, which splits over concatenation |
| `G722Qmf.CircularDotProduct` | jni/spandsp/vector_int.c:263-270 | two partial products give `CircularDot`, the product from the oldest sample of the ring on |
| `G722Qmf.CircularIsUnrolled` | jni/spandsp/vector_int.c:263-270 | the ring product is the plain product from the oldest sample on |
| `G722Qmf.AnalyseStepFits` | jni/spandsp/g722.c:523-539 | with clipped input the filter sums fit 32 bits and both band samples are fifteen-bit numbers |
| `G722Qmf.AnalyseFits` | jni/spandsp/g722.c:506-540 | over every stream all band samples are fifteen-bit numbers |
| `G722Qmf.SynthesiseStepFits` | jni/spandsp/g722.c:424-431 | one step: sum and difference of two limited samples fit sixteen bits, and the filter sums fit 32; `DecoderOutputFits` carries it to every byte stream |
| `G722Qmf.SynthesiseFits` | jni/spandsp/g722.c:415-433 | the same at every sample of every stream of limited band samples, from any state of the filter |
| `G722Response.AnalysisIsFilter` | jni/spandsp/g722.c:523-539 | at every pair of every stream the low band is the 24-tap prototype, written out, on the clipped input, and the high band the same with every second tap negated |
| `G722Response.ConstantIsLow` | jni/spandsp/g722.c:523-539 | a constant input goes to the low band alone once the filter is full |
| `G722Response.AlternationIsHigh` | jni/spandsp/g722.c:523-539 | an input that changes its sign at every sample goes to the high band alone |
| `G722Response.SynthesisIsFilter` | jni/spandsp/g722.c:424-431 | both output samples of every pair, in their order: the odd taps on the differences of the bands, the even taps on their sums |
| `G722Response.CascadeIsDelay` | jni/spandsp/g722.c:513-541 | the taps of both banks together are a delay, up to a quarter of a percent |
| `G722Response.BackToBack` | jni/spandsp/g722.c:415-433 | for every stream below the clipping limit and bands that come back to within e, every output sample is the input 22 samples earlier to within 3.2e, seven and a quarter of a percent of the peak |
| `G722Response.UncodedBackToBack` | jni/spandsp/g722.c:415-433 | with uncoded bands, to within seven and a quarter of a percent of the peak |
| `G722Stream.ModeFor` | jni/spandsp/g722.c:447-458 | each of the three bit rates gives its own bits per code, any other bit rate eight, and packing is only ever on below eight bits |
| `G722Stream.EncodeInPieces` | jni/spandsp/g722.c:478-635 | encoding in several calls is encoding the concatenation |
| `G722Stream.DecodeInPieces` | jni/spandsp/g722.c:297-436 | decoding a byte stream cut anywhere is decoding the whole |
| `G722Stream.EncodeKeepsSound` | jni/spandsp/g722.c:478-635 | after every encoder call both bands satisfy the invariant, the filter memory is clipped and at most seven bits are buffered |
| `G722Stream.DecodeKeepsSound` | jni/spandsp/g722.c:297-436 | after every decoder call, on any bytes, both bands satisfy the invariant and at most seven bits are buffered |
| `G722Stream.FreshIsSound` | jni/spandsp/g722.c:439-462 | a fresh coder is a start for both |
| `G722Stream.StreamLockstep` | jni/spandsp/g722.c:297-635 | whole calls, packed or not: the decoder ends in the encoder's state after the codes it has received, at most two behind |
| `G722Stream.LowBandError` | jni/spandsp/g722.c:506-559 | the error bound for band signals that come from any input |
| `G722Stream.HighBandError` | jni/spandsp/g722.c:381-396 | the same for the high band, within the decision level of its quantiser |
| `G722Stream.DecoderOutputFits` | jni/spandsp/g722.c:409-433 | for every byte stream, from any state, at every sample: the doubled 8 kHz sample fits sixteen bits, both inputs of the receive filter fit sixteen bits and both filter sums fit 32 |
| `G722Stream.EightKError` | jni/spandsp/g722.c:409-420 | in the 8 kHz mode an output sample is within twice the decision interval plus one of the input sample |
| `G722Stream.SixteenKError` | jni/spandsp/g722.c:297-635 | with both filter banks, unpacked: where the twelve pairs behind an output sample are outside overload, it is the input 22 samples earlier to within 3.2 times the errors of the bands, seven and a quarter of a percent of the peak |
| `G722Machine.SetScale` | jni/spandsp/g722.c:570-574 | the stored step size is `Scale` of the logarithm, so it never wraps |
| `G722Machine.SearchLevel` | jni/spandsp/g722.c:545-553 | the loop with its early exit finds the specified level |
| `G722Machine.EncodeLowBand` | jni/spandsp/g722.c:542-576 | the low-band blocks over the band fields equal `EncodeLow`, so the invariant and lockstep hold of them |
| `G722Machine.EncodeHighBand` | jni/spandsp/g722.c:585-613 | the high-band blocks over the band fields equal `EncodeHigh` |
| `G722Machine.DecodeLowBand` | jni/spandsp/g722.c:332-379 | the low-band blocks of the decoder equal `DecodeLow`, clamping before the cast |
| `G722Machine.DecodeHighBand` | jni/spandsp/g722.c:381-407 | the high-band blocks of the decoder equal `DecodeHigh` |
| `G722Machine.Coder.constructor` | jni/spandsp/g722.c:439-462 | a new coder is in the reset state and the mode its options ask for |
| `G722Machine.Coder.SplitBands` | jni/spandsp/g722.c:513-541 | clipping, ring update and both filter sums equal `AnalyseStep`, and the bands are untouched |
| `G722Machine.Coder.EncodeSample` | jni/spandsp/g722.c:542-615 | one code and both new bands equal `EncodeStep`; at 8 kHz the high band rests |
| `G722Machine.Coder.PutCode` | jni/spandsp/g722.c:617-628 | one step on the bit buffer equals `PackStep`, and the bands are untouched |
| `G722Machine.Coder.Encode` | jni/spandsp/g722.c:478-635 | the whole call: state and bytes are those of the specification |
| `G722Machine.Coder.GetCode` | jni/spandsp/g722.c:315-326 | the code taken and what is left to take equal `Unpack` of the remaining bytes |
| `G722Machine.Coder.DecodeSample` | jni/spandsp/g722.c:332-407 | both samples and new bands equal `DecodeStep` |
| `G722Machine.Coder.JoinBands` | jni/spandsp/g722.c:415-433 | ring update and output samples equal `SynthesiseStep`, whose order and taps `SynthesisIsFilter` writes out, and the bands are untouched |
| `G722Machine.Coder.Decode` | jni/spandsp/g722.c:297-436 | the whole call: state and samples are those of the specification |
| `FixedPoint.MultRExact` | jni/spandsp/gsm0610_local.h:123-133 | the rounded product loses no bits to its cast outside its one special case |
| `FixedPoint.TopBitIs` | jni/spandsp/gsm0610_lpc.c:76-89 | the highest set bit is the only position that brackets the number |
| `GsmPreprocess.StepIsExact` | jni/spandsp/gsm0610_preprocess.c:91-143 | inside the interval no cast loses a bit and no 32-bit addition saturates, the sample put out is the filtered one less 0.86 times the one before, limited, and the next state is inside again |
| `GsmPreprocess.NeverSaturates` | jni/spandsp/gsm0610_preprocess.c:73-149 | on every stream from reset every sample is filtered exactly, for ever |
| `GsmPreprocess.ResetIsBounded` | jni/spandsp/gsm0610_encode.c:125 | a reset filter is inside the interval |
| `GsmPreprocess.RunAppend` | jni/spandsp/gsm0610_preprocess.c:88-90 | filtering frame by frame is filtering the whole stream |
| `GsmPreprocess.Preprocess` | jni/spandsp/gsm0610_preprocess.c:73-149 | the loop over local copies ends with state and output of `Run`, the function of the bound above |
| `GsmArith.FindMaximum` | jni/spandsp/gsm0610_lpc.c:297-304 | the largest saturated magnitude: an upper bound that some sample attains |
| `GsmArith.NormNormalises` | jni/spandsp/gsm0610_lpc.c:76-89 | shifting by the result brings any non-zero number into the upper half of its range without leaving 32 bits |
| `GsmLpc.Divide` | jni/spandsp/gsm0610_lpc.c:100-134 | the fifteen-step division returns floor(num*2^15/denom), or 32767 when both are equal and positive |
| `GsmLpc.ProductOfTwo` | jni/spandsp/gsm0610_lpc.c:339-411 | twice a product is at most the sum of the squares, the step behind the dominance of lag zero |
| `GsmLpc.LagZeroDominates` | jni/spandsp/gsm0610_lpc.c:339-411 | no lag of the autocorrelation exceeds lag zero |
| `GsmLpc.CorrOfPair` | jni/spandsp/gsm0610_lpc.c:339-411 | two samples correlate at the distance between them, with their product, and at no other lag but zero |
| `GsmLpc.ScaledSampleFits` | jni/spandsp/gsm0610_lpc.c:307-330 | the scaling leaves every sample within 2048 |
| `GsmLpc.RescalingIsNear` | jni/spandsp/gsm0610_lpc.c:325-330 | for any scale, scaling a sample down and back returns it to within half the scale if and only if it does not round up to 32768 |
| `GsmLpc.ReturnedIsNear` | jni/spandsp/gsm0610_lpc.c:307-420 | with the shift that the frame itself selects: sample i comes back to within half the scale if and only if it is below 32760 |
| `GsmLpc.ReturnedWraps` | jni/spandsp/gsm0610_lpc.c:414-420 | a sample of any frame from 32760 on comes back as -32768 |
| `GsmLpc.LoudFrameWraps` | jni/spandsp/gsm0610_lpc.c:414-420 | a frame of 160 samples on which that happens |
| `GsmLpc.AcfIsDominated` | jni/spandsp/gsm0610_lpc.c:277-411 | for every frame the doubled sums fit 32 bits and lag zero dominates |
| `GsmLpc.NormalisingNeverOverflows` | jni/spandsp/gsm0610_lpc.c:446-454 | the shift that the source marks with a question never overflows |
| `GsmLpc.CoefficientsInRange` | jni/spandsp/gsm0610_lpc.c:464-487 | no reflection coefficient is -32768 |
| `GsmLpc.ErrorShrinks` | jni/spandsp/gsm0610_lpc.c:488-490 | one round takes at most its own amount from the prediction error, so the error neither grows nor turns negative |
| `GsmLpc.ErrorNeverGrows` | jni/spandsp/gsm0610_lpc.c:463-502 | along the whole recursion the prediction error stays between zero and the one it started with |
| `GsmLpc.SchurByRounds` | jni/spandsp/gsm0610_lpc.c:463-502 | coefficient m is the quotient of P as it stands after m rounds, formed where the numerator does not exceed the denominator, or zero from the first failed guard on |
| `GsmLpc.Autocorrelation` | jni/spandsp/gsm0610_lpc.c:277-422 | the routine computes the specified sums and leaves the frame scaled and rescaled |
| `GsmLpc.ReflectionInto` | jni/spandsp/gsm0610_lpc.c:426-503 | exactly eight coefficients are written, through both early exits, and every assert holds |
| `GsmLpc.Normalise` | jni/spandsp/gsm0610_lpc.c:446-454 | the loop gives `Normalised`, every shifted value checked against 32 bits |
| `GsmLpc.SchurInto` | jni/spandsp/gsm0610_lpc.c:463-502 | the recursion over P and K in place gives `Schur`, whose first failing round fills the rest with zeros |
| `GsmLpc.SchurRound` | jni/spandsp/gsm0610_lpc.c:488-500 | one round over P and K equals the old values combined, although both arrays are overwritten as they are read; `CoefficientsPredict` says what they are |
| `GsmPrediction.CoefficientsPredict` | jni/spandsp/gsm0610_lpc.c:444-503 | for every autocorrelation and order below eight up to which the recursion neither stops nor saturates: P and K are the autocorrelation filtered by the step-up polynomial of the coefficients, to within (2^n - 1)/2, and the polynomial solves all n normal equations to within 2^n |
| `GsmPrediction.AllCoefficientsPredict` | jni/spandsp/gsm0610_lpc.c:444-503 | all eight coefficients together solve the eight normal equations of linear prediction to within 256, where lag zero is at least 2^14 |
| `GsmPrediction.RoundsAreNear` | jni/spandsp/gsm0610_lpc.c:463-502 | the same along the recursion from any round on |
| `GsmLpc.TransformToLars` | jni/spandsp/gsm0610_lpc.c:507-546 | the transform in place gives `Lars`, and no ratio is -32768 |
| `GsmLpc.LarIsPiecewise` | jni/spandsp/gsm0610_lpc.c:507-546 | the ratio is r, 2r - 0.675 and 8r - 6.375 in its three ranges, and odd |
| `GsmLpc.LarGrows` | jni/spandsp/gsm0610_lpc.c:507-546 | larger coefficients have larger ratios, across both joints |
| `GsmLpc.LarCodeFits` | jni/spandsp/gsm0610_lpc.c:563-583 | every coded ratio is between 0 and the width of its range |
| `GsmLpc.QuantiseLars` | jni/spandsp/gsm0610_lpc.c:550-585 | the coding in place gives `LarCodes`, each within its range |
| `GsmPrediction.RatioComesBack` | jni/spandsp/gsm0610_short_term.c:59-89 | a ratio comes back from the channel to within half a step if and only if it lies in the range of its coefficient |
| `GsmLpc.LpcAnalysis` | jni/spandsp/gsm0610_lpc.c:588-598 | the four stages together give `Analysed`: codes in range and the rescaled frame |
| `GsmPrediction.CoefficientComesBack` | jni/spandsp/gsm0610_lpc.c:588-598 | the coefficient that the filters of both sides use for a code is that of the analysed frame to within a step and one, if its ratio lies in the range |
| `GsmShortTerm.StageInverts` | jni/spandsp/gsm0610_short_term.c:208-298 | a synthesis stage undoes an analysis stage that did not saturate, if and only if a coefficient of -32768 does not meet a sample of -32768 |
| `GsmShortTerm.MinimalCoefficientFails` | jni/spandsp/gsm0610_short_term.c:208-298 | an input on which synthesis does not undo an analysis without saturation |
| `GsmShortTerm.ToReflection` | jni/spandsp/gsm0610_short_term.c:159-204 | no coefficient used by the filters is -32768 |
| `GsmShortTerm.SampleInverts` | jni/spandsp/gsm0610_short_term.c:208-298 | all eight stages on one sample invert bit for bit, and the synthesis memory equals the analysis memory |
| `GsmShortTerm.RunInverts` | jni/spandsp/gsm0610_short_term.c:208-298 | the same for a signal of any length |
| `GsmShortTerm.FrameInverts` | jni/spandsp/gsm0610_short_term.c:301-361 | the same across the four coefficient sets of a frame |
| `GsmShortTerm.SignalInverts` | jni/spandsp/gsm0610_short_term.c:301-361 | the same over any number of frames with any codes, through the interpolation memory |
| `GsmShortTerm.DecodeLogAreaRatios` | jni/spandsp/gsm0610_short_term.c:59-89 | the unrolled macro gives `DecodedLars` |
| `GsmShortTerm.Interpolate` | jni/spandsp/gsm0610_short_term.c:106-155 | each of the four segments gets its own mix of old and new ratios, `InterpolatedIsMix` |
| `GsmShortTerm.InterpolatedIsMix` | jni/spandsp/gsm0610_short_term.c:106-155 | the four rules mix the older and the newer ratio three to one, one to one, one to three and none to one, up to the bits that the shifts drop |
| `GsmShortTerm.RatiosAreRemembered` | jni/spandsp/gsm0610_short_term.c:301-361 | the ratios of a frame are the older ones of the next, and only of the next |
| `GsmShortTerm.FrameBySample` | jni/spandsp/gsm0610_short_term.c:301-329 | the analysis switches its coefficients at samples 13, 27 and 40 of a frame |
| `GsmShortTerm.SynthesisedBySample` | jni/spandsp/gsm0610_short_term.c:332-361 | and so does the synthesis |
| `GsmShortTerm.LarpToRp` | jni/spandsp/gsm0610_short_term.c:159-204 | the conversion in place gives `ToReflection` of every old entry |
| `GsmShortTerm.AnalyseOne` | jni/spandsp/gsm0610_short_term.c:208-254 | eight stages over the memory in place equal `AnalyseSample`, the function that is shown to be invertible |
| `GsmPrediction.AnalysisIsPredictor` | jni/spandsp/gsm0610_short_term.c:208-254 | for every signal on which no stage saturates, the residual is the predictor polynomial of the coefficients on the nine latest samples, to within 127.5 |
| `GsmShortTerm.ShortTermAnalysisFiltering` | jni/spandsp/gsm0610_short_term.c:208-254 | a stretch of the frame is replaced by `AnalyseRun` of itself and the rest is untouched |
| `GsmShortTerm.SynthesiseOne` | jni/spandsp/gsm0610_short_term.c:257-298 | eight stages from the last down equal `SynthesiseSample` |
| `GsmShortTerm.ShortTermSynthesisFiltering` | jni/spandsp/gsm0610_short_term.c:257-298 | a stretch of the output is `SynthesiseRun` of the residual and the rest is untouched |
| `GsmShortTerm.ShortTermAnalysisFilter` | jni/spandsp/gsm0610_short_term.c:301-329 | one frame in place equals `AnalyseFrame`, and the older ratios are replaced and the toggle flipped |
| `GsmShortTerm.ShortTermSynthesisFilter` | jni/spandsp/gsm0610_short_term.c:332-361 | one frame equals `SynthesiseFrame`, and the ratio memory changes as on the other side |
| `GsmLongTerm.Scan` | jni/spandsp/gsm0610_long_term.c:70-236 | the largest positive correlation and the first lag that reaches it, or lag 40 |
| `GsmLongTerm.ScaledCorrelation` | jni/spandsp/gsm0610_long_term.c:299-310 | scaled back, every correlation of the search is that of the sub-segment itself to within one unit of the scale per sample |
| `GsmLongTerm.ScaleIs` | jni/spandsp/gsm0610_long_term.c:269-302 | a sub-segment below 512 is not scaled, a louder one to exactly ten bits |
| `GsmLongTerm.ScaledFits` | jni/spandsp/gsm0610_long_term.c:269-302 | the scaling leaves ten bits of every sample |
| `GsmLongTerm.CorrAtBound` | jni/spandsp/gsm0610_long_term.c:184-225 | no correlation leaves 32 bits at any lag |
| `GsmLongTerm.CorrelationFits` | jni/spandsp/gsm0610_long_term.c:304-312 | the doubled maximum fits 32 bits before and after it is scaled back |
| `GsmLongTerm.GainFrom` | jni/spandsp/gsm0610_long_term.c:336-347 | the gain code is the first whose decision threshold is not exceeded |
| `GsmLongTerm.GainFollowsRatio` | jni/spandsp/gsm0610_long_term.c:324-347 | the chosen gain is the one whose interval, bounded by 20, 50 and 80 percent, holds the ratio of correlation and power |
| `GsmLongTerm.GainIsNear` | jni/spandsp/gsm0610_long_term.c:324-347 | the gain is within 10, 15, 15 or 20 percent of the ratio, by code |
| `GsmLongTerm.GainValues` | jni/spandsp/gsm0610_long_term.c:57-68 | the four gains are 10, 35, 65 and 100 percent |
| `GsmLongTerm.GainFitsSegment` | jni/spandsp/gsm0610_long_term.c:269-347 | for every sub-segment and history the plain correlation at the chosen lag is at most the upper percentage of the chosen gain of the plain power there, and at least the lower one, up to what scaling loses |
| `GsmLongTerm.PowerIsScaled` | jni/spandsp/gsm0610_long_term.c:315-322 | the power is a sixty-fourth of the plain one of the same samples |
| `GsmLongTerm.GainIsExact` | jni/spandsp/gsm0610_long_term.c:324-334 | between the two early exits normalising overflows nowhere and the correlation stays below the power |
| `GsmLongTerm.Parameters` | jni/spandsp/gsm0610_long_term.c:253-348 | every lag is in 40 to 120 and every gain code in 0 to 3 |
| `GsmLongTerm.MaxCrossCorr` | jni/spandsp/gsm0610_long_term.c:70-236 | the loop returns `Scan`: maximum and first lag that reaches it |
| `GsmLongTerm.PowerAt` | jni/spandsp/gsm0610_long_term.c:314-322 | the loop gives the doubled `Power`, which stays below 2^31 |
| `GsmLongTerm.CodeGain` | jni/spandsp/gsm0610_long_term.c:324-347 | both early exits and the threshold loop give `GainCode` |
| `GsmLongTerm.EvaluateLtpParameters` | jni/spandsp/gsm0610_long_term.c:253-348 | lag and gain are `Parameters` of segment and history, and all three asserts hold |
| `GsmLongTerm.LongTermAnalysisFiltering` | jni/spandsp/gsm0610_long_term.c:352-371 | prediction and residual are right even when the prediction is written into the buffer the history is read from |
| `GsmLongTerm.PeriodIsPredicted` | jni/spandsp/gsm0610_long_term.c:352-371 | a sub-segment that repeats the history after the lag leaves a residual of at most one |
| `GsmLongTerm.LongTermSynthesisFiltering` | jni/spandsp/gsm0610_long_term.c:398-434 | the sub-segment is rebuilt, and the history shifts over it in place |
| `GsmLongTerm.UsedLagIs` | jni/spandsp/gsm0610_long_term.c:414-416 | a lag out of range repeats the one before |
| `GsmLongTerm.ShiftHistory` | jni/spandsp/gsm0610_long_term.c:428-433 | the ascending copy over overlapping memory moves the 120 samples down by forty |
| `GsmRpe.WeightSumFits` | jni/spandsp/gsm0610_rpe.c:194-230 | the filter sum fits 32 bits for every input |
| `GsmRpe.WeightingFilter` | jni/spandsp/gsm0610_rpe.c:183-230 | all forty outputs are `Weighted`: the saturated sum over eleven taps with the two margins |
| `GsmRpe.WeightOfSample` | jni/spandsp/gsm0610_rpe.c:61-232 | a single sample comes out of the weighting filter with the same tap on either side, and unchanged in the middle |
| `GsmRpe.SharedPulses` | jni/spandsp/gsm0610_rpe.c:253-271 | the sum computed once for grids 0 and 3 is right for both |
| `GsmRpe.GridIsFirstBest` | jni/spandsp/gsm0610_rpe.c:236-344 | the chosen grid is the first that maximises the sum of squares, and the only one with that property |
| `GsmRpe.GridKeepsAThird` | jni/spandsp/gsm0610_rpe.c:236-344 | the chosen pulses keep at least a third of the energy of the block |
| `GsmRpe.GridSelection` | jni/spandsp/gsm0610_rpe.c:236-344 | the selection with its shared sum, without 32-bit overflow, and the thirteen samples on the grid |
| `GsmRpe.PulsesOnGrid` | jni/spandsp/gsm0610_rpe.c:527-560 | pulse i lies at Mc + 3i and every other sample is zero |
| `GsmRpe.GridPositioning` | jni/spandsp/gsm0610_rpe.c:527-560 | the switch into the middle of the loop writes exactly forty samples |
| `GsmApcm.ExpMant` | jni/spandsp/gsm0610_rpe.c:348-384 | exponent in -4 to 6 and mantissa in 0 to 7 |
| `GsmApcm.ShiftedBelowMaximum` | jni/spandsp/gsm0610_rpe.c:412-436 | shifted by the exponent, every pulse stays below the decoded maximum |
| `GsmApcm.PulseCodeFits` | jni/spandsp/gsm0610_rpe.c:453-464 | the product is the exact one and the code fits three bits |
| `GsmApcm.BlockIsCodable` | jni/spandsp/gsm0610_rpe.c:387-478 | for every block the shift loses nothing, each pulse code fits three bits and the maximum six |
| `GsmApcm.RestoredError` | jni/spandsp/gsm0610_rpe.c:482-523 | in the shifted domain the restored pulse is within an eighth of the mantissa plus nine eighths |
| `GsmApcm.PulseError` | jni/spandsp/gsm0610_rpe.c:348-523 | for every block a decoded pulse is within an eighth of the decoded block maximum, plus two, of the original |
| `GsmApcm.MaximumIsNear` | jni/spandsp/gsm0610_rpe.c:348-442 | the decoded maximum of a block is its maximum, raised by at most an eighth and 31 |
| `GsmApcm.PulseComesBack` | jni/spandsp/gsm0610_rpe.c:348-523 | for every block a decoded pulse is within nine sixty-fourths of the block's own maximum, plus six, of the original |
| `GsmApcm.MaxCodeToExpMant` | jni/spandsp/gsm0610_rpe.c:348-384 | the loop terminates with `ExpMant`, and its asserts hold |
| `GsmApcm.CodeMaximum` | jni/spandsp/gsm0610_rpe.c:421-442 | the fixed loop of halvings finds the exponent, and the saturating addition does not saturate |
| `GsmApcm.Quantise` | jni/spandsp/gsm0610_rpe.c:387-478 | maximum, exponent, mantissa and pulses are `Quantised`, and all asserts hold for every block |
| `GsmApcm.InverseQuantise` | jni/spandsp/gsm0610_rpe.c:482-523 | the thirteen pulses are `Decoded`, and its asserts hold |
| `GsmExcitation.Coded` | jni/spandsp/gsm0610_rpe.c:563-582 | grid, maximum and pulses always fit their widths |
| `GsmExcitation.ExcitationIsNear` | jni/spandsp/gsm0610_rpe.c:563-598 | the receiver gets every pulse of the weighted signal to within an eighth of the decoded maximum plus two, and silence off the grid |
| `GsmExcitation.RpeEncoding` | jni/spandsp/gsm0610_rpe.c:563-582 | the encoder ends with exactly the excitation that the decoder will rebuild, in place between two zero margins |
| `GsmExcitation.RpeDecoding` | jni/spandsp/gsm0610_rpe.c:585-598 | all forty samples are `Excitation` of the parameters, the same function as on the other side |
| `GsmFrame.NoneRoundTrip` | jni/spandsp/gsm0610_decode.c:105-124 | the unpacked format gives back every in-range frame |
| `GsmFrame.FieldsInOrder` | jni/spandsp/gsm0610_encode.c:147-167 | the order of the 76 parameters and their widths |
| `GsmFrame.NoneIsFields` | jni/spandsp/gsm0610_encode.c:147-167 | in the unpacked format byte k is parameter k |
| `GsmFrame.PackNoneInto` | jni/spandsp/gsm0610_encode.c:147-167 | the two nested loops give `PackNone`: one byte for each of the 76 parameters |
| `GsmFrame.UnpackNoneFrom` | jni/spandsp/gsm0610_decode.c:105-124 | the two nested loops give `UnpackNone` |
| `GsmFrame.MaskedInRange` | jni/spandsp/gsm0610_encode.c:170-262 | cutting every parameter to its width gives an in-range frame, and leaves one that already is |
| `GsmWav49.UnpackAfterPack` | jni/spandsp/gsm0610_decode.c:127-266 | unpacking the 65 bytes of any two in-range frames gives both back |
| `GsmWav49.PackAfterUnpack` | jni/spandsp/gsm0610_encode.c:170-262 | packing the frames of any 65 bytes gives the bytes back: the format has no spare bit |
| `GsmWav49.FrameWidthIs260` | jni/spandsp/gsm0610_encode.c:170-262 | a frame is 260 bits, so the second one starts inside a byte |
| `GsmWav49.Writer.Put` | jni/spandsp/gsm0610_encode.c:176-177 | one parameter of any value into the sixteen-bit register: exactly its low bits enter, and nothing is lost at the bottom that is not yet written |
| `GsmWav49.Writer.Out` | jni/spandsp/gsm0610_encode.c:178 | a byte is written with the one shift that puts the next eight bits of the stream into it |
| `GsmWav49.PackWav49` | jni/spandsp/gsm0610_encode.c:170-262 | all 65 literal shifts are the right ones: for any two frames, parameters wider than their fields included, the bytes are the low bits of all parameters in order, least significant first |
| `GsmWav49.Reader.Load` | jni/spandsp/gsm0610_decode.c:134 | a byte is stacked exactly on top of the bits that are left |
| `GsmWav49.Reader.Get` | jni/spandsp/gsm0610_decode.c:132-133 | one parameter out of the register |
| `GsmWav49.UnpackWav49` | jni/spandsp/gsm0610_decode.c:127-266 | all literal shifts of the reader are the right ones |
| `GsmVoip.UnpackAfterPack` | jni/spandsp/gsm0610_decode.c:269-311 | unpacking the 33 bytes of any in-range frame gives it back |
| `GsmVoip.PackAfterUnpack` | jni/spandsp/gsm0610_encode.c:265-309 | packing the frame of any 33 bytes gives them back, except that the top nibble of the first becomes 0xD |
| `GsmVoip.PackIsBitStream` | jni/spandsp/gsm0610_encode.c:265-309 | the 33 bytes are the signature and then all parameters in order, most significant bit first, as section 4.5.8 of RFC 3551 lays them out |
| `GsmVoip.PackVoipInto` | jni/spandsp/gsm0610_encode.c:265-309 | the loop gives `PackVoip`, so its bytes are the bit stream above |
| `GsmVoip.UnpackVoipFrom` | jni/spandsp/gsm0610_decode.c:269-311 | the loop gives `UnpackVoip` |
| `GsmCodec.LarTransformInverts` | jni/spandsp/gsm0610_lpc.c:507-546 | the decoder's conversion gives back every reflection coefficient to within one, and exactly from 22118 on |
| `GsmCodec.SubInStep` | jni/spandsp/gsm0610_encode.c:86-101 | from equal histories the decoder rebuilds the sub-segment that the encoder kept, whatever lag it used before |
| `GsmCodec.SubsInStep` | jni/spandsp/gsm0610_decode.c:90-98 | the same over the sub-segments of a frame |
| `GsmCodec.FrameIsTransmittable` | jni/spandsp/gsm0610_encode.c:71-106 | every parameter the encoder produces fits its width, every lag is in 40 to 120, every ratio code is within its range |
| `GsmCodec.FrameInStep` | jni/spandsp/gsm0610_decode.c:79-102 | after a frame both histories and both ratio memories are equal again, and the decoder has rebuilt the encoder's residual |
| `GsmCodec.FirstInStep` | jni/spandsp/gsm0610_encode.c:116-129 | a fresh encoder and a fresh decoder are in step |
| `GsmCodec.Lockstep` | jni/spandsp/gsm0610_decode.c:314-352 | over any number of frames the decoder's history, ratios and toggle equal the encoder's |
| `GsmCodec.EncodeAppend` | jni/spandsp/gsm0610_encode.c:312-340 | encoding in several calls is encoding the whole |
| `GsmCodec.DecodeAppend` | jni/spandsp/gsm0610_decode.c:314-352 | decoding in several calls is decoding the whole |
| `GsmCodec.ClearLowBits` | jni/spandsp/gsm0610_decode.c:72 | the output mask clears the three low bits and lowers the sample by less than eight |
| `GsmCodec.EmphasisComesBack` | jni/spandsp/gsm0610_decode.c:59-76 | for every input whose emphasised samples stay off the limits, de-emphasis follows the offset-filtered signal to within 7 and puts out twice that signal to within 21 |
| `GsmPipeline.EncoderIsContinuous` | jni/spandsp/gsm0610_encode.c:71-106 | over any number of frames the offset filter and the analysis lattice see one signal, with the ratios of each frame interpolated from the frame before |
| `GsmPipeline.HistoryIsRebuilt` | jni/spandsp/gsm0610_encode.c:103-105 | the history is the end of what was rebuilt |
| `GsmPipeline.DecoderIsContinuous` | jni/spandsp/gsm0610_decode.c:79-102 | over any frames the synthesis lattice and the de-emphasis see one signal |
| `GsmPipeline.OnlyResidualIsLost` | jni/spandsp/gsm0610_decode.c:79-102 | for every stream whose residuals come back unchanged and whose lattice does not saturate, the decoder de-emphasises the very frames that the encoder analysed, bit for bit |
| `GsmStream.UnitRoundTrip` | jni/spandsp/gsm0610_decode.c:314-352 | in all three packings a unit of in-range frames survives |
| `GsmStream.StreamRoundTrip` | jni/spandsp/gsm0610_decode.c:314-352 | the same for a stream of units |
| `GsmStream.DenseBytesInRange` | jni/spandsp/gsm0610_decode.c:331-347 | in the two dense packings any bytes give frames in range |
| `GsmStream.DenseIsDecodable` | jni/spandsp/gsm0610_decode.c:314-352 | so in the two dense packings the decoder's asserts and table lookups hold on every string of whole units |
| `GsmStream.Transmission` | jni/spandsp/gsm0610_encode.c:312-340 | in every packing and over every stream the decoder gets exactly the encoder's frames, returns as many samples as went in, and ends in step |
| `GsmMachine.EncodeSegment` | jni/spandsp/gsm0610_encode.c:86-101 | one round at the sliding pointer, with the prediction aliasing the history buffer |
| `GsmMachine.EncodeSegments` | jni/spandsp/gsm0610_encode.c:77-105 | four rounds leave the last 120 rebuilt samples in the upper part of the buffer |
| `GsmMachine.KeepHistory` | jni/spandsp/gsm0610_encode.c:103-105 | after the copy the buffer starts with the last 120 samples |
| `GsmMachine.DecodeSegment` | jni/spandsp/gsm0610_decode.c:92-93 | one coded sub-segment gives `DecodeSub` behind the history, and the history shifts over it |
| `GsmMachine.DecodeSegments` | jni/spandsp/gsm0610_decode.c:89-98 | four sub-segments, with the history shifted in place after each |
| `GsmMachine.Postprocessing` | jni/spandsp/gsm0610_decode.c:59-76 | the loop gives `Post` of the old samples and the state |
| `GsmMachine.Coder.constructor` | jni/spandsp/gsm0610_encode.c:116-129 | a new coder is a fresh encoder and a fresh decoder |
| `GsmMachine.Coder.EncodeAFrame` | jni/spandsp/gsm0610_encode.c:71-106 | the frame and the new state are `EncodeFrame`, every parameter fits its width, and the sliding pointer stays inside the buffer |
| `GsmMachine.Coder.DecodeAFrame` | jni/spandsp/gsm0610_decode.c:79-102 | the samples and the new state are `DecodeFrame` |
| `GsmMachine.Coder.Encode` | jni/spandsp/gsm0610_encode.c:312-340 | in each of the three packings the bytes and the new state are `Encode` of the whole input, including the inner step of the pairs |
| `GsmMachine.Coder.Decode` | jni/spandsp/gsm0610_decode.c:314-352 | in each of the three packings the samples and the new state are `Decode` of the whole input; in the unpacked one any ratio code and any lag byte are decoded |
| `EchoFilter.WriteIsPush` | jni/oslec-jni/spandsp/fir.h:254-266 | a write into the ring followed by the step back is a push onto the delay line |
| `EchoFilter.LineAt` | jni/oslec-jni/spandsp/fir.h:256-262 | the two index expressions of both loops are the entries of the delay line in order |
| `EchoFilter.WrapIsInvisible` | jni/oslec-jni/spandsp/fir.h:260-267 | a convolution sum that wraps in 32 bits gives the same answer as one that does not |
| `EchoFilter.FactorWrapIsInvisible` | jni/oslec-jni/echo.c:235-253 | nor does a factor that wraps change an adapted tap |
| `EchoFilter.Convolve` | jni/oslec-jni/spandsp/fir.h:256-262 | two straight loops over the ring give one convolution over the delay line |
| `EchoFilter.ImpulseResponse` | jni/oslec-jni/spandsp/fir.h:256-267 | the response to a single sample is its tap, wherever in the line it is |
| `EchoFilter.Fir.constructor` | jni/oslec-jni/spandsp/fir.h:112-127 | a new filter has a silent delay line |
| `EchoFilter.Fir.Flush` | jni/oslec-jni/spandsp/fir.h:130-137 | a flushed filter has a silent delay line |
| `EchoFilter.Fir.Filter` | jni/oslec-jni/spandsp/fir.h:176-268 | the sample is pushed onto the delay line and the answer is the convolution with it, shifted and cut to sixteen bits |
| `EchoFilter.LmsAdapt` | jni/oslec-jni/echo.c:226-255 | both loops together move every tap by its own rounded product of sample and scaled residual, and nothing else; `TapMoves` says by how much |
| `EchoFilter.TapMoves` | jni/oslec-jni/echo.c:226-255 | for a total power of about 2 to the l, and for every l, a tap moves by the product of sample and residual over 2 to the l - 13, to within one, as long as it stays inside sixteen bits |
| `EchoControl.AdaptionLaw` | jni/oslec-jni/echo.c:456-506 | in every run every background tap follows this law with its own transmitted sample and the residual that the old taps leave, and rests during a hangover |
| `EchoControl.DcStepFits` | jni/oslec-jni/echo.c:398-416 | the DC filter stays in an interval that needs no rounding slack, and no intermediate result leaves 32 bits |
| `EchoControl.DcStepIs` | jni/oslec-jni/echo.c:398-416 | an eighth of the memory drains at every sample, and the change of the input comes in, scaled by fifteen sixteenths |
| `EchoControl.DcIsRemoved` | jni/oslec-jni/echo.c:398-416 | while the input is constant the memory shrinks by an eighth at every sample, until fewer than eight units are left |
| `EchoControl.TrackStaysBounded` | jni/oslec-jni/echo.c:436-442 | a level is never negative and never above the largest sample it has seen |
| `EchoControl.TrackMovesOn` | jni/oslec-jni/echo.c:436-442 | a level moves a thirty-second of the way to the new magnitude |
| `EchoControl.RunStaysReachable` | jni/oslec-jni/echo.c:369-539 | over every run of updates and flushes the DC filter stays within its interval, all four levels stay between zero and the largest sample they can see (16384, 16384, 32768 and 49152) and both counters stay in their ranges |
| `EchoControl.LineIsHistory` | jni/oslec-jni/echo.c:441-456 | in every run both filters and the adaption work on the latest transmitted samples, newest first, back to the last flush |
| `EchoControl.PowerIsEnergy` | jni/oslec-jni/echo.c:422-432 | over every run the running power is the energy of the delay line over the power of two below its length, to within a half for every update since the last flush |
| `EchoControl.DwellIsTimeLeft` | jni/oslec-jni/echo.c:508-516 | the hangover counter is exactly what is left of 600 updates since the last detection |
| `EchoControl.CounterIsStreak` | jni/oslec-jni/echo.c:518-537 | the condition counter is the length of the current streak, cut at six; a flush does not interrupt it |
| `EchoControl.TransferIffSevenHeld` | jni/oslec-jni/echo.c:518-537 | the background is copied to the foreground if and only if the condition held in this and at least the six preceding updates; otherwise the foreground stays |
| `EchoControl.HeldIff` | jni/oslec-jni/echo.c:523-526 | the condition in terms of the run alone: adaption on, background better, and 599 updates since a detection |
| `EchoControl.StreakAfterDetection` | jni/oslec-jni/echo.c:508-537 | k updates after a detection the streak is at most k - 598 |
| `EchoControl.ForegroundIsFrozen` | jni/oslec-jni/echo.c:508-536 | after a double-talk detection the foreground does not change in that update and the next 604, unless flushed |
| `EchoControl.FreezeIsTight` | jni/oslec-jni/echo.c:508-536 | the 605th update after the last detection does transfer if the background has done better for seven updates |
| `EchoWitness.FreezeEnds` | jni/oslec-jni/echo.c:369-537 | such a run, sample by sample from creation: two taps, an update that adapts the background and detects double talk, 604 updates that leave the foreground at zero, and a 605th that changes it |
| `EchoWitness.SteadyRun` | jni/oslec-jni/echo.c:456-537 | along that run the background cancels the signal exactly, is better in every update and is not adapted further |
| `EchoControl.EchoCanceller.constructor` | jni/oslec-jni/echo.c:260-314 | a new canceller is in the created state |
| `EchoControl.EchoCanceller.Flush` | jni/oslec-jni/echo.c:336-359 | a flush resets filters, taps, positions and levels, everything but the condition counter |
| `EchoControl.EchoCanceller.RemoveDc` | jni/oslec-jni/echo.c:398-416 | state and output step as `DcStep`, with its hard limit |
| `EchoControl.EchoCanceller.TrackPower` | jni/oslec-jni/echo.c:422-432 | the sample that leaves the running power is the oldest of the delay line, read where the next one will be written |
| `EchoControl.EchoCanceller.RunFilters` | jni/oslec-jni/echo.c:441-452 | both filters answer on the same pushed delay line; their positions move on while the canceller's stays on the newest sample |
| `EchoControl.EchoCanceller.AdaptBackground` | jni/oslec-jni/echo.c:500-505 | with the canceller's own position the adaption reads the delay line of the filter answers, and the step size follows the running power |
| `EchoControl.EchoCanceller.Measure` | jni/oslec-jni/echo.c:386-454 | filter, power, both answers and the levels are `Measured`, and the background residual is that of the pushed line |
| `EchoControl.EchoCanceller.TrackLevels` | jni/oslec-jni/echo.c:436-456 | all four averages step as `Track`, for which the bound is proved |
| `EchoControl.EchoCanceller.Decide` | jni/oslec-jni/echo.c:508-537 | detection and transfer on the fields: the foreground becomes the background exactly when the flag is returned |
| `EchoControl.EchoCanceller.Update` | jni/oslec-jni/echo.c:369-601 | DC filter, power, filters, levels, adaption, hangover and transfer together give `Updated`, the three positions stay equal, and the returned flag is `Transfers` |

## Left out

- MMX, SSE, x86 and Blackfin assembler branches: only the portable C branches are modelled, and of the
  preprocessing filter the branch for GNU C.
- `itu_test_mode` of the G.722 coder: both modes with the filter bank or at 8 kHz are modelled.
- The saturating helpers of jni/spandsp/spandsp/saturated.h and `top_bit` of both libraries (-1 for zero) are
  modelled by their results, not by their branches and masks.
- Output buffers: encoders and decoders return the bytes or samples they append as a sequence; the
  SQLite encoder and all in-place routines keep their arrays.
- The two-element arrays `a` and `p` of a G.722 band are pairs, and the two ratio sets of a GSM coder are
  sequences that its methods replace, so writes into them element by element are not captured.
- The ends of the array K of the Schur recursion, which the source leaves unset and never reads, start
  as zero.
- Pointers into the middle of a buffer are an array and an index; the forty samples that one round of
  the GSM encoder reads are copied out first.
- Runs of the STEP macro are written as loops where all rounds have the same form.
- Lengths are unbounded: a call with more samples or bytes than an `int` counts is not modelled.
- GsmMachine.Coder.Encode: whole frames, in pairs for the 65-byte packing, because the source reads
  beyond the input otherwise.
- GsmMachine.Coder.Decode: whole units, for the same reason; in the unpacked format gains, grids, block
  maxima and pulses must be within their tables, which the source asserts or indexes unchecked. Ratio codes
  and lags may be any byte.
- Frame rescaling in the LPC analysis is not lossless: `GsmLpc.ReturnedIsNear` says exactly which samples of
  a frame come back close, and `GsmLpc.ReturnedWraps` what happens to the others.
- SqliteEncode.DecodeBinary: only for text with a terminator inside the buffer, because without one the
  source reads on beyond it; any other text, well-formed or not, is covered.
- The echo canceller after its transfer logic: non-linear processing, comfort noise, the snapshot and the
  transmit high-pass filter, none of which feeds back into the modelled path.
- The running power of the echo canceller is unbounded upwards; its 32-bit limit is not modelled, because
  its rounding can drift by a half at every update (`EchoControl.PowerIsEnergy`). Convolution sums and the adaption factor are unbounded too, where
  `EchoFilter.WrapIsInvisible` and `EchoFilter.FactorWrapIsInvisible` show that a wrap makes no difference.
- An echo canceller of a single tap, for which the source shifts by -1.
- Allocation failure, release and free routines.
- Perceptual quality, convergence and signal-to-noise claims.
- Socket, netlink, ioctl, JNI and command-line code of the repository.
