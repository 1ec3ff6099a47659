# SETIkit stream filters in Dafny

This project models the core of SETIkit, a set of small C programs that process a stream of
samples. Each program reads raster lines of interleaved complex `float` samples (`cmplx`, a
real part in slot `REAL` = 0 and an imaginary part in slot `IMAG` = 1) from standard input.
It transforms every complete raster and writes the result. The model covers:

- the index bookkeeping of the filters in `src/sq_dsp.c`: reading a stream raster by raster,
  the argument guards, the per-sample maps, raster summation, binning, padding, the FFT half
  flip, 50% overlap framing and the weighted-overlap-add (WOLA) polyphase engine;
- the utility kernels of `src/sq_utils.c`: the channel swap, 8-bit sampling, column output and
  the error messages;
- the image kernels of `src/sq_imaging.c`: reading complete rows, averaging rows, chopping a
  sub-rectangle, linear scaling to pixel values and the raw PGM ("P5") writer;
- the window name dispatch of `src/sq_windows.c`.

Modelling choices:

- **Streams.** An input stream is a sequence plus a cursor. `SqStreams.Fread` copies at most
  `n` items into an array at an offset, the way `fread` does, and reports whether all `n`
  items came. The complete rasters of a stream are `Frames(s, n)`. A filter's output is the
  sequence of rasters it writes. Each filter is a method whose `ensures` gives its status and
  its whole output as a function of the input stream. Each raster is processed in place in an
  `array` by a block method whose `ensures` ties the new array contents to a function of the
  old contents.
- **Numbers.** Sample values are `real`; IEEE single-precision rounding is not modelled.
  Lengths are `nat`: the C's 32-bit wrap-around is not modelled, and "## Left out" names the places where it matters.
- **Window coefficients.** The WOLA window table (`init_window`) and the Hann and Hamming
  coefficients are given values: a `seq<real>` or a function parameter.
- **Products.** `SqStreams.Times(k, n)` is `k * n` computed by repeated addition.
  `TimesIsProduct` proves the two equal. Loop invariants use it to avoid nonlinear arithmetic.

The modules are `SqConstants` (error codes, limits, the complex sample type and interleaved
layout), `SqStreams` (frames and `fread`), `SqDspMaps` (per-sample maps), `SqDspRaster`
(sum, bin, pad, fftflip, overlap2x), `SqWola`, `SqUtils`, `SqImaging` and `SqWindows`.

## Model

| member | source | states |
|---|---|---|
| SqConstants.Interleave | src/sq_constants.h:60-63 | a frame of complex samples laid out as floats has twice as many floats |
| SqConstants.InterleaveAt | src/sq_constants.h:60-63 | float `2*s + c` of the interleaved layout is the real part of sample s when c = REAL, its imaginary part when c = IMAG |
| SqConstants.Deinterleave | src/sq_constants.h:60-63 | reading floats as `cmplx` pairs: sample i is (x[2i], x[2i+1]) |
| SqConstants.DeinterleaveInterleave | src/sq_constants.h:60-63 | reading back the interleaved layout gives the original samples |
| SqConstants.Zeros | src/sq_dsp.c:185-190 | a buffer of n zero samples, where every sample is (0, 0) |
| SqStreams.Frames | src/sq_dsp.c:89 | every complete raster read from a stream has exactly n samples |
| SqStreams.FramesCount | src/sq_dsp.c:89 | a stream of length m holds m / n complete rasters; a trailing partial raster is dropped |
| SqStreams.FramesAt | src/sq_dsp.c:89 | raster j is the slice of the stream from j*n to (j+1)*n |
| SqStreams.FramesUnfold | src/sq_dsp.c:89 | a successful read of n items yields that slice, followed by the rasters of the rest |
| SqStreams.FramesShort | src/sq_dsp.c:89 | a short read ends the raster sequence |
| SqStreams.FlattenFrames | src/sq_dsp.c:89 | the rasters, concatenated, are a prefix of the stream shorter than the stream plus one raster |
| SqStreams.FramesFlatten | src/sq_dsp.c:99 | writing rasters of length n and reading the result back in rasters of n gives the same rasters |
| SqStreams.Fread | src/sq_dsp.c:89 | the read succeeds iff n items remain; it copies the items read to the buffer at the offset, without touching the rest of the buffer; a short read consumes the rest of the stream |
| SqDspMaps.MapFrames | src/sq_dsp.c:89-100 | the output of a per-raster filter: output raster j is the map applied to input raster j |
| SqDspMaps.ReadStep | src/sq_dsp.c:89 | one read either yields the next raster or finds none remaining |
| SqDspMaps.MapAdvance | src/sq_dsp.c:89-100 | one trip of the read-transform-write loop keeps "written so far plus the rest still to come is the whole output" |
| SqDspMaps.PowerFrame | src/sq_dsp.c:91-97 | sample i becomes (re² + im², 0) |
| SqDspMaps.PowerBlock | src/sq_dsp.c:91-97 | the in-place loop leaves the raster's power frame in the buffer |
| SqDspMaps.Power | src/sq_dsp.c:75-105 | ERR_ARG_BOUNDS unless 2 <= in_length < MAX_SMPLS_LEN; otherwise the power of each complete raster |
| SqDspMaps.PowerSample | src/sq_dsp.c:93-96 | the power of a sample is real and non-negative, and zero at the zero sample |
| SqDspMaps.PowerOfThreeFour | src/sq_dsp.c:93-96 | worked example: the sample (3, 4) has power (25, 0) |
| SqDspMaps.ConjugateSample | src/sq_dsp.c:529-530 | the conjugate keeps the real part and mirrors the imaginary part: the two imaginary parts sum to zero |
| SqDspMaps.ConjugateFrame | src/sq_dsp.c:529-530 | sample i keeps its real part and negates its imaginary part |
| SqDspMaps.Conjugate | src/sq_dsp.c:513-538 | ERR_ARG_BOUNDS unless 2 <= in_length <= MAX_SMPLS_LEN; otherwise the conjugate of each complete raster |
| SqDspMaps.ConjugateInvolution | src/sq_dsp.c:529-530 | conjugating a raster twice gives it back |
| SqDspMaps.ConjugateStreamInvolution | src/sq_dsp.c:513-538 | piping the conjugate filter's output through the filter again gives the complete rasters of the input |
| SqDspMaps.PowerOfConjugate | src/sq_dsp.c:93-96 | conjugation does not change the power |
| SqDspMaps.OffsetSample | src/sq_dsp.c:457-461 | the new sample differs from the old one by exactly real_delta in the real part and imag_delta in the imaginary part |
| SqDspMaps.OffsetFrame | src/sq_dsp.c:457-461 | sample i becomes (re + real_delta, im + imag_delta) |
| SqDspMaps.Offset | src/sq_dsp.c:441-469 | ERR_ARG_BOUNDS unless 2 <= in_length <= MAX_SMPLS_LEN; otherwise each complete raster offset by the two deltas |
| SqDspMaps.OffsetCompose | src/sq_dsp.c:457-461 | two offsets compose into the offset by the sums of the deltas; the negated deltas undo an offset |
| SqDspMaps.SubAvgFrame | src/sq_dsp.c:488-503 | each sample minus the mean of the raster, part by part |
| SqDspMaps.PartSums | src/sq_dsp.c:488-494 | the loop's two sums are the sums of the real and of the imaginary parts |
| SqDspMaps.SubAvgBlock | src/sq_dsp.c:486-503 | the two loops leave the raster minus its mean in the buffer |
| SqDspMaps.SubAvg | src/sq_dsp.c:471-511 | ERR_ARG_BOUNDS unless 2 <= in_length <= MAX_SMPLS_LEN; otherwise each complete raster minus its mean |
| SqDspMaps.SumShift | src/sq_dsp.c:499-503 | subtracting c from every value lowers the sum by length times c |
| SqDspMaps.SubAvgZeroMean | src/sq_dsp.c:488-503 | after the filter both parts of a raster sum to zero |
| SqDspMaps.SubAvgIdempotent | src/sq_dsp.c:488-503 | applying the filter twice is the same as applying it once |
| SqDspMaps.CrossSample | src/sq_dsp.c:135-141 | the real part is re1·re2 − im1·im2 and the imaginary part, as written, is 2·re1·im2 |
| SqDspMaps.CrossFrame | src/sq_dsp.c:133-146 | sample i becomes the cross sample of the two inputs' sample i |
| SqDspMaps.CrossMultiplyBlock | src/sq_dsp.c:133-146 | the in-place loop leaves the cross frame in the first buffer |
| SqDspMaps.CrossStep | src/sq_dsp.c:126-129 | a read from both streams yields the two next rasters |
| SqDspMaps.CrossMultiply | src/sq_dsp.c:107-157 | ERR_ARG_BOUNDS unless 2 <= in_length < MAX_SMPLS_LEN; otherwise rasters are paired until either stream runs short |
| SqDspMaps.CrossStreamBlocks | src/sq_dsp.c:126-146 | the output has min(R1, R2) rasters, and raster j combines raster j of each stream |
| SqDspMaps.CrossSampleVersusProduct | src/sq_dsp.c:135-141 | the real part is that of the complex product; the whole sample equals the product iff re1·im2 = im1·re2 |
| SqDspMaps.CrossSampleCounterexample | src/sq_dsp.c:139-141 | (0+1i)·(1+0i) has imaginary part 1, but the filter gives 0 |
| SqDspMaps.CrossSampleNotCommutative | src/sq_dsp.c:139-141 | as written, (1+0i)×(0+1i) gives imaginary part 2 |
| SqDspMaps.ProductCommutes | src/sq_dsp.c:139-141 | the evidently intended complex product is commutative |
| SqDspMaps.ComponentFrame | src/sq_dsp.c:356-357 | output value i is the selected part of input sample i |
| SqDspMaps.ComponentBlock | src/sq_dsp.c:356-357 | the copy loop leaves that frame in the output buffer |
| SqDspMaps.Component | src/sq_dsp.c:331-365 | ERR_ARG_BOUNDS for a bad length or a component other than 0 or 1; otherwise the part of each complete raster |
| SqDspMaps.RealPart | src/sq_dsp.c:367-370 | sq_real is sq_component with REAL |
| SqDspMaps.ImagPart | src/sq_dsp.c:372-375 | sq_imag is sq_component with IMAG |
| SqDspMaps.ComponentsReassemble | src/sq_dsp.c:356-357 | the real and the imaginary output together give back every sample |
| SqDspRaster.AddFrame | src/sq_dsp.c:200-204 | the element-wise sum of two rasters |
| SqDspRaster.SumRasters | src/sq_dsp.c:186-204 | the sum of a group of rasters still has in_length samples |
| SqDspRaster.ZeroBlock | src/sq_dsp.c:186-190 | the sum buffer is set to zeros |
| SqDspRaster.AccumulateBlock | src/sq_dsp.c:200-204 | the accumulation loop adds the raster to the sum buffer |
| SqDspRaster.SumRastersSnoc | src/sq_dsp.c:195-204 | adding one more raster to a group adds it to the group's sum |
| SqDspRaster.GroupStep | src/sq_dsp.c:195-204 | a raster read inside a group joins that group's sum |
| SqDspRaster.ReadInto | src/sq_dsp.c:195-210 | one read either adds the next raster to the sum or finds the input exhausted, with the sum unchanged |
| SqDspRaster.ReadGroup | src/sq_dsp.c:183-211 | one group: min(num_to_sum, rasters left) rasters are summed; shutdown is scheduled iff fewer than num_to_sum remained |
| SqDspRaster.SumAdvance | src/sq_dsp.c:216-221 | the flush rule: write on the first pass or when the group is complete, and stop after a short group |
| SqDspRaster.SumGroups | src/sq_dsp.c:159-228 | ERR_ARG_BOUNDS unless 2 <= in_length <= MAX_SMPLS_LEN; otherwise the sums of num_to_sum consecutive rasters, the first written even when partial |
| SqDspRaster.SumStreamCount | src/sq_dsp.c:213-221 | R complete rasters give max(1, R / num_to_sum) output rasters |
| SqDspRaster.SumRest | src/sq_dsp.c:213-221 | later groups write nothing exactly when fewer than N rasters remain, and every written sum has in_length samples |
| SqDspRaster.SumStream | src/sq_dsp.c:181-222 | at least one raster is always written, even for an empty stream, and every written raster has in_length samples |
| SqDspRaster.SumRestCount | src/sq_dsp.c:213-221 | after the first group, only complete groups are written |
| SqDspRaster.SumStreamGroups | src/sq_dsp.c:181-222 | output j > 0 is the sum of input rasters j·N to (j+1)·N; output 0 is the sum of the first min(N, R) |
| SqDspRaster.SumRestAt | src/sq_dsp.c:192-217 | complete group j is the sum of input rasters j·N through (j+1)·N − 1 |
| SqDspRaster.SumRestAtOffset | src/sq_dsp.c:192-217 | the same at a given offset a = j·N |
| SqDspRaster.SumOfNothing | src/sq_dsp.c:213-218 | an empty input still produces one raster of zeros |
| SqDspRaster.SumOneIsIdentity | src/sq_dsp.c:181-222 | with num_to_sum = 1 a non-empty stream passes through unchanged |
| SqDspRaster.SumOneRest | src/sq_dsp.c:181-222 | groups of one are the rasters themselves |
| SqDspRaster.SumOneRaster | src/sq_dsp.c:186-204 | the sum of one raster is that raster |
| SqDspRaster.BinArgStatus | src/sq_dsp.c:829-839 | the guards as written: 0 iff the mis-parenthesised bounds test passes and out_length < in_length, else ERR_ARG_BOUNDS |
| SqDspRaster.PadArgStatus | src/sq_dsp.c:758-768 | the guards as written: 0 iff the mis-parenthesised bounds test passes and out_length > in_length, else ERR_ARG_BOUNDS |
| SqDspRaster.MisparenthesisedGuardAccepts | src/sq_dsp.c:758-759 | the bounds test accepts iff in_length is in range or out_length is out of range |
| SqDspRaster.BinGuardAdmitsZeroOutput | src/sq_dsp.c:829-851 | as written, in_length = 5 and out_length = 0 pass the guards, and the next line divides by zero; the intended guard rejects them |
| SqDspRaster.PadGuardAdmitsEmptyInput | src/sq_dsp.c:758-782 | as written, in_length = 0 and out_length = 1 pass the guards, and every zero-length fread then succeeds forever; the intended guard rejects them |
| SqDspRaster.BinArgStatusIntended | src/sq_dsp.c:829-839 | both lengths in range and out_length < in_length; this accepts only what the guard as written accepts too |
| SqDspRaster.PadArgStatusIntended | src/sq_dsp.c:758-768 | both lengths in range and in_length < out_length; this accepts only what the guard as written accepts too |
| SqDspRaster.BinSize | src/sq_dsp.c:850-851 | bin_size = in_length / out_length is positive, and out_length bins fit in the input raster |
| SqDspRaster.BinFrame | src/sq_dsp.c:857-868 | output k is the bin sample of input block k, for k < out_length |
| SqDspRaster.BinAccumulate | src/sq_dsp.c:861-867 | the inner loop leaves the bin sample of [start, stop) in output slot out_i and changes no other slot |
| SqDspRaster.ScaledSum | src/sq_dsp.c:865-866 | non-negative terms with a positive bin size accumulate to a non-negative total, and all-zero terms to zero |
| SqDspRaster.BinSample | src/sq_dsp.c:865-866 | a block of real, non-negative samples (a power raster) bins to a real, non-negative sample |
| SqDspRaster.BinSampleStep | src/sq_dsp.c:865-866 | each trip adds input / bin_size to both parts |
| SqDspRaster.BinBlock | src/sq_dsp.c:857-868 | the output buffer is zeroed and then holds the binned frame |
| SqDspRaster.BinBounds | src/sq_dsp.c:861-862 | every bin [k·bs, (k+1)·bs) lies inside the input raster and is input block k |
| SqDspRaster.Bin | src/sq_dsp.c:827-877 | the guards as written give the status; on 0 every complete raster is binned |
| SqDspRaster.ScaledSumIsMean | src/sq_dsp.c:865-866 | adding x / d term by term gives the sum divided by d |
| SqDspRaster.BinIsBlockMean | src/sq_dsp.c:859-868 | output sample k is the mean of input samples k·bs through (k+1)·bs − 1 |
| SqDspRaster.BinIgnoresTail | src/sq_dsp.c:859-868 | input samples from out_length·bs on do not affect the output |
| SqDspRaster.BinTailAt | src/sq_dsp.c:859-868 | two rasters that agree on the first out_length·bs samples have the same first out_length blocks |
| SqDspRaster.PadOffset | src/sq_dsp.c:777 | the offset centres the block: the left margin equals the right one or is one sample shorter |
| SqDspRaster.PadFrame | src/sq_dsp.c:773-785 | a padded raster has out_length samples |
| SqDspRaster.PadFrameParts | src/sq_dsp.c:773-785 | the input sits at offset (out − in) / 2, with zeros before it and after it |
| SqDspRaster.PadStep | src/sq_dsp.c:780-785 | reading into the middle of the zeroed buffer gives the padded raster and keeps the zero borders |
| SqDspRaster.PadRound | src/sq_dsp.c:782-785 | one read either gives the padded next raster or ends the run; the borders stay zero |
| SqDspRaster.Pad | src/sq_dsp.c:756-791 | the guards as written give the status; on 0 every complete raster is padded |
| SqDspRaster.FlipFloats | src/sq_dsp.c:809-817 | the flip keeps the length of the float buffer |
| SqDspRaster.FlipPrefixStep | src/sq_dsp.c:811-816 | one trip swaps float pair 2s with float pair 2s + in_length |
| SqDspRaster.SwapPair | src/sq_dsp.c:811-816 | the temp swap exchanges the two float pairs and nothing else |
| SqDspRaster.FftFlipBlock | src/sq_dsp.c:809-817 | the in-place loop leaves the flipped raster in the buffer |
| SqDspRaster.FftFlip | src/sq_dsp.c:793-825 | ERR_ARG_BOUNDS unless 2 <= in_length <= MAX_SMPLS_LEN; otherwise each complete raster flipped |
| SqDspRaster.FlipFloatsInvolution | src/sq_dsp.c:809-817 | flipping twice restores the raster, for any length |
| SqDspRaster.HalfSwap | src/sq_dsp.c:809-817 | the half swap of a raster keeps its length |
| SqDspRaster.FlipEvenIsHalfSwap | src/sq_dsp.c:809-817 | for even in_length the flip swaps sample i with sample i + in_length/2, for every i < in_length/2 |
| SqDspRaster.FlipEvenAt | src/sq_dsp.c:809-817 | for even in_length, every float of the flipped buffer is the float of the half swap |
| SqDspRaster.FlipLow | src/sq_dsp.c:813-814 | for even in_length, low sample i receives sample i + in_length/2 |
| SqDspRaster.FlipHigh | src/sq_dsp.c:815-816 | for even in_length, high sample i receives sample i − in_length/2 |
| SqDspRaster.FlipOddMixesParts | src/sq_dsp.c:813-814 | for odd in_length the float offset in_length is not a sample boundary: with three samples, sample 0 becomes (im of sample 1, re of sample 2) |
| SqDspRaster.Overlap | src/sq_dsp.c:946-958 | output j is half j followed by half j + 1 |
| SqDspRaster.OverlapCons | src/sq_dsp.c:946-958 | the first output joins the first two halves |
| SqDspRaster.OverlapStep | src/sq_dsp.c:948-957 | one trip writes the current pair of halves and moves on by one half |
| SqDspRaster.CopyInto | src/sq_dsp.c:950-951 | memcpy places the half at its offset and leaves the rest of the buffer |
| SqDspRaster.JoinHalves | src/sq_dsp.c:950-951 | the output buffer is the two halves in order |
| SqDspRaster.OverlapRound | src/sq_dsp.c:948-957 | one trip of the loop with the two buffers' roles swapped keeps the output invariant |
| SqDspRaster.Overlap2x | src/sq_dsp.c:910-965 | ERR_ARG_BOUNDS unless in_length is in range and even; otherwise the overlapped rasters of half-length reads |
| SqDspRaster.OverlapWindows | src/sq_dsp.c:946-958 | output j is the stream slice from j·half to j·half + in_length, which is a 50% overlap |
| SqDspRaster.OverlapShares | src/sq_dsp.c:955-957 | consecutive outputs share a half: the second half of output j is the first half of output j + 1 |
| SqWola.WolaArgStatus | src/sq_dsp.c:653-667 | the guards as written return ERR_ARG_BOUNDS for every input |
| SqWola.WolaOverlapGuardRejects | src/sq_dsp.c:663 | with in_length >= 2, overlap < 1 and overlap >= in_length never both hold |
| SqWola.WolaGuardExample | src/sq_dsp.c:653-667 | in_length 64, 4 folds and overlap 50 are rejected as written and accepted by the intended guard |
| SqWola.WolaArgStatusIntended | src/sq_dsp.c:653-667 | 0 iff 2 <= in_length <= MAX_ZOOM_LEN, folds >= 1 and 1 <= overlap < in_length, else ERR_ARG_BOUNDS |
| SqWola.ReadLen | src/sq_dsp.c:694-698 | readlen lies in [1, in_length], and it is below in_length iff overlap is 25 or 50 |
| SqWola.Rotate | src/sq_dsp.c:720-745 | the history seen from the cursor has the history's length |
| SqWola.RotateAt | src/sq_dsp.c:729-732 | entry j of the history seen from cursor s is history[(s + j) mod W] |
| SqWola.Emit | src/sq_dsp.c:724-735 | an emitted frame has in_length bins, and bin k is the weighted fold sum of the entries that land on k |
| SqWola.FoldBlock | src/sq_dsp.c:724-735 | the emit pass leaves the cursor where it was and fills the FFT buffer with the fold of the rotated history |
| SqWola.FoldNext | src/sq_dsp.c:729-734 | one step adds the weighted sample to bin (t mod in_length) |
| SqWola.RotateUpdate | src/sq_dsp.c:741-744 | writing at cursor s + i, wrapped by subtraction, updates entry i of the rotated history |
| SqWola.RotateShift | src/sq_dsp.c:743-744 | moving the cursor by R rotates the view by R |
| SqWola.Refill | src/sq_dsp.c:739-745 | the cursor moves to (s + readlen) mod W, and the view drops the oldest readlen samples and appends the new ones |
| SqWola.RefillOne | src/sq_dsp.c:741-744 | one trip of the refill loop stores one sample and moves the cursor by one with wrap-around |
| SqWola.RefillStep | src/sq_dsp.c:741-744 | one stored sample extends the refilled prefix of the view |
| SqWola.RefillDone | src/sq_dsp.c:739-745 | after readlen stores, the view from the new cursor is the old tail followed by the new samples |
| SqWola.WolaAdvance | src/sq_dsp.c:736-738 | after one emitted frame the remaining output is that of the stream moved on by readlen |
| SqWola.HistoryAdvance | src/sq_dsp.c:737-745 | after a read the history is the most recent W samples of the stream, and the cursor is (a + R) mod W |
| SqWola.WolaRound | src/sq_dsp.c:722-746 | one trip of the main loop either ends the output or emits one frame and keeps the history, cursor and output invariants |
| SqWola.WolaLoop | src/sq_dsp.c:720-746 | after the initial fill the loop writes exactly the frames of the windows at 0, R, 2R, … of the stream |
| SqWola.WolaBody | src/sq_dsp.c:679-754 | the body after the guards, for every overlap: dump mode returns the window table; a short initial fill gives ERR_STREAM_READ and no frames; otherwise the windowed, folded frames |
| SqWola.WolaOut | src/sq_dsp.c:711-746 | no frame is written iff the stream is shorter than the window, and every frame has in_length bins |
| SqWola.FoldSum | src/sq_dsp.c:727-735 | a bin index outside [0, in_length), or one not yet reached by the fold, has received nothing |
| SqWola.WolaOutCount | src/sq_dsp.c:711-746 | a stream of m >= W samples gives (m − W) / R + 1 frames, and a shorter one gives none |
| SqWola.WolaOutAt | src/sq_dsp.c:711-746 | frame k is the emitted fold of stream samples k·R through k·R + W − 1 |
| SqWola.FoldSumPartial | src/sq_dsp.c:727-735 | within one fold the step has touched bin k iff it has passed offset k |
| SqWola.FoldClosed | src/sq_dsp.c:727-735 | after g complete folds, bin k is the sum over f < g of w[k + f·L]·x[k + f·L] |
| SqWola.FoldClosedAt | src/sq_dsp.c:727-735 | the same at a given offset a = g·L |
| SqWola.EmitClosedForm | src/sq_dsp.c:724-735 | bin k is the sum over f < folds of w[k + f·L]·hist[(smpli + k + f·L) mod W] |
| SqWola.RotatedFolds | src/sq_dsp.c:729-732 | every fold's entry k of the rotated history is hist[(smpli + f·L + k) mod W] |
| SqWola.RotatedFoldAt | src/sq_dsp.c:729-732 | the same for one fold f at offset a = f·L |
| SqWola.FoldOneFlat | src/sq_dsp.c:724-735 | worked example of the closed form: with one fold and all weights 1, a frame is the history itself |
| SqUtils.Memcpy | src/sq_utils.c:221-224 | the n items are copied to the destination offset and the rest of the destination is unchanged |
| SqUtils.SwapFloats | src/sq_utils.c:217-227 | the swap keeps the length of the float buffer |
| SqUtils.ChannelSwap | src/sq_utils.c:217-227 | the three memcpy calls leave the swapped buffer in place, as a function of the old buffer |
| SqUtils.SwapAssembled | src/sq_utils.c:221-224 | the two memcpy calls into the temporary array assemble the swapped buffer |
| SqUtils.ChannelSwapIsHalfSwap | src/sq_utils.c:217-227 | for even length the channel swap is the half swap of the samples |
| SqUtils.HalfSwapRotates | src/sq_utils.c:217-227 | result[i] = old[(i + length/2) mod length] |
| SqUtils.SwapEvenIsFlip | src/sq_utils.c:217-227 | for even length the channel swap and the fftflip filter agree |
| SqUtils.HalfSwapInvolution | src/sq_utils.c:217-227 | for even length, swapping twice is the identity |
| SqUtils.SwapInvolution | src/sq_dsp.c:406-429 | for even length the swap before the inverse FFT undoes the swap after the forward FFT |
| SqUtils.HalfSwapKeepsSamples | src/sq_utils.c:217-227 | the half swap is a permutation of the samples |
| SqUtils.SwapOddLosesLastSample | src/sq_utils.c:221-224 | for odd length, the byte count `sizeof * length / 2` copies half a sample: the result repeats one float and ends in an uninitialised float |
| SqUtils.SwapOddExample | src/sq_utils.c:221-224 | for the six floats a, b, c, d, e, f of three samples the result is c, d, a, b, c, junk |
| SqUtils.SampleFrame | src/sq_utils.c:164-168 | one float for every byte |
| SqUtils.Widen | src/sq_utils.c:166 | each signed byte as a float |
| SqUtils.SampleIsConjugate | src/sq_utils.c:164-168 | each byte pair (r, i) becomes the sample (r, −i), the conjugate of the widened pair |
| SqUtils.SampleBounds | src/sq_utils.c:166-167 | values lie in [−128, 128], and real parts lie in [−128, 127] |
| SqUtils.SampleBlock | src/sq_utils.c:164-168 | the conversion loop fills the output buffer with the sampled frame |
| SqUtils.Sample | src/sq_utils.c:143-185 | ERR_ARG_BOUNDS for nsamples = 0 or nsamples > MAX_SMPLS_LEN; otherwise each complete chunk of nsamples pairs is sampled, and a partial chunk is dropped |
| SqUtils.SampleStreamIsConjugate | src/sq_utils.c:161-171 | output chunk j is the conjugate of the widened input chunk j |
| SqUtils.ValuesOfAppend | src/sq_utils.c:131-138 | values and line breaks of consecutive outputs add up |
| SqUtils.CellTokens | src/sq_utils.c:133-137 | each value is printed once, followed by a newline iff it is the ncolumns-th of its line |
| SqUtils.Columns | src/sq_utils.c:131-138 | the dump has between one and two tokens per value, and a non-empty dump ends in a line break iff the count of values is a multiple of ncolumns (an empty one has no tokens) |
| SqUtils.ColumnsValues | src/sq_utils.c:131-138 | the printed values are exactly the floats read, in order |
| SqUtils.ColumnsLines | src/sq_utils.c:131-138 | the output has count / ncolumns line breaks |
| SqUtils.ReadStream | src/sq_utils.c:123-141 | ERR_ARG_BOUNDS and no output when ncolumns <= 0; otherwise the column layout, returning the number of floats read |
| SqUtils.KnownMessage | src/sq_utils.c:201-208 | a code has a specific message iff it is one of the six codes from ERR_MALLOC to ERR_ARG_BOUNDS |
| SqUtils.ErrorHandle | src/sq_utils.c:199-215 | every message ends in "\n", and the message is "\n" alone iff the code is non-negative |
| SqUtils.ErrorMessagesDistinct | src/sq_utils.c:203-208 | the six listed codes get six different messages, none of them "Unhandled error." |
| SqUtils.TagInjective | src/sq_utils.c:203-208 | character 10 tells the six listed messages apart |
| SqUtils.ErrorTag | src/sq_utils.c:203-208 | each listed message has that tag at character 10 |
| SqUtils.ErrorUnhandled | src/sq_utils.c:209-211 | any other negative code, ERR_UNKNOWN_WINDOW among them, gives "Unhandled error.\n" |
| SqImaging.ReadImg | src/sq_imaging.c:115-132 | ERR_ARG_BOUNDS with the buffer untouched unless rows > 0 and cols > 0; otherwise it returns min(rows, complete rows available) and stores the samples read |
| SqImaging.ReadRow | src/sq_imaging.c:124 | one row read succeeds iff cols values remain, and stores what it reads after the rows already stored |
| SqImaging.ShortRaster | src/sq_imaging.c:124-128 | a short read at row rowi makes rowi the row count |
| SqImaging.FullRaster | src/sq_imaging.c:122-131 | when all rows are read, the count is rows |
| SqImaging.RowFits | src/sq_imaging.c:124 | row rowi starts at rowi·cols and ends inside the image |
| SqImaging.RowStart | src/sq_imaging.c:124 | the offset of row r is r·cols |
| SqImaging.RowsOf | src/sq_imaging.c:217-218 | the image as rows rows of cols values |
| SqImaging.RowsOfAt | src/sq_imaging.c:218 | row r is img_in[r·cols, (r+1)·cols) |
| SqImaging.RowOffset | src/sq_imaging.c:218 | the same with the offset written cols·r |
| SqImaging.MeanRow | src/sq_imaging.c:222-225 | an averaged row has cols values |
| SqImaging.Averaged | src/sq_imaging.c:211-230 | rows / avglines output rows of cols values each; a trailing partial group is dropped |
| SqImaging.AveragedUnfold | src/sq_imaging.c:215-229 | the first group's mean row, then the average of the rest |
| SqImaging.AveragedAt | src/sq_imaging.c:215-229 | output row j, column c, is the mean of column c over input rows j·avglines through (j+1)·avglines − 1 |
| SqImaging.ColumnSumSnoc | src/sq_imaging.c:217-218 | adding a row adds its value to each column sum |
| SqImaging.AccumulateRow | src/sq_imaging.c:217-218 | the accumulator gains the row's values |
| SqImaging.AddRowToGroup | src/sq_imaging.c:217-218 | the accumulator holds the column sums of the group's rows so far |
| SqImaging.AccumulateStep | src/sq_imaging.c:217-218 | adding row rowi extends the column sums by one row |
| SqImaging.EmitRow | src/sq_imaging.c:222-227 | the output row is the accumulator divided by avglines; the accumulator is reset to zero; the rest of the output is unchanged |
| SqImaging.FlushGroup | src/sq_imaging.c:220-229 | a complete group writes the group's mean row at output row g and resets the accumulator |
| SqImaging.EmitStep | src/sq_imaging.c:220-229 | writing a mean row keeps "written plus still to come is the whole output" |
| SqImaging.GroupEnd | src/sq_imaging.c:220 | (rowi + 1) mod avglines = 0 exactly at the last row of a group |
| SqImaging.OutputFits | src/sq_imaging.c:211-225 | output row g fits in the rows / avglines output rows |
| SqImaging.FlushIfComplete | src/sq_imaging.c:220-229 | the flush test and flush keep the loop invariant |
| SqImaging.AverageStep | src/sq_imaging.c:215-230 | one trip of the row loop keeps the loop invariant |
| SqImaging.AverageDone | src/sq_imaging.c:215-230 | at the end the output holds exactly the averaged rows |
| SqImaging.AverageLines | src/sq_imaging.c:208-233 | the first (rows / avglines)·cols outputs are the averaged rows, and nothing else is written |
| SqImaging.OutputLength | src/sq_imaging.c:211 | the averaged image has (rows / avglines)·cols values |
| SqImaging.FlattenLength | src/sq_imaging.c:225 | k rows of n values flatten to k·n values |
| SqImaging.ChopFirst | src/sq_imaging.c:162-166 | the first kept row or column, ⌊n·f⌋, is at most n |
| SqImaging.ChopLast | src/sq_imaging.c:163-167 | the end of the kept range, ⌊n·(1 − f)⌋, is at most n |
| SqImaging.ChopKeepsMiddle | src/sq_imaging.c:162-168 | for f <= 0.5 the first kept index is at most the last, and the kept range is at most n·(1 − 2f) + 1 long |
| SqImaging.SubRect | src/sq_imaging.c:172-178 | the kept sub-rectangle has nr rows of nc values |
| SqImaging.ChopRow | src/sq_imaging.c:174-177 | the inner loop appends columns col_first to col_last of one row |
| SqImaging.ChopStep | src/sq_imaging.c:172-178 | one row of the outer loop extends the output by that row's kept columns |
| SqImaging.ChopGrow | src/sq_imaging.c:172-178 | one more kept row appends that row's slice |
| SqImaging.ChopRowStep | src/sq_imaging.c:176 | the row's read and write offsets stay in bounds |
| SqImaging.ChopDone | src/sq_imaging.c:172 | the loop ends after row_count rows |
| SqImaging.ChopRows | src/sq_imaging.c:172-178 | the loops write the flattened sub-rectangle and nothing past row_count·col_count |
| SqImaging.ImChop | src/sq_imaging.c:157-179 | the output is the flattened sub-rectangle, and the rest of img_out is unchanged |
| SqImaging.FlattenAt | src/sq_imaging.c:176 | value (i, j) of the flattened output is at i·n + j |
| SqImaging.ChopAt | src/sq_imaging.c:176 | out[col_count·i + j] = in[cols·(row_first + i) + col_first + j], so every write index is below row_count·col_count |
| SqImaging.SubRectAt | src/sq_imaging.c:176 | kept row i is a slice of input row row_first + i |
| SqImaging.SeqMin | src/sq_imaging.c:56-63 | the minimum is one of the values and no value is below it |
| SqImaging.SeqMax | src/sq_imaging.c:56-63 | the maximum is one of the values and no value is above it |
| SqImaging.MinMax | src/sq_imaging.c:56-63 | the scan loop finds the minimum and the maximum of the image |
| SqImaging.LinearScaled | src/sq_imaging.c:65-71 | the scaled image keeps its size |
| SqImaging.ScaleAll | src/sq_imaging.c:65-71 | every value becomes (v − min)·255 / (max − min) |
| SqImaging.ScaledAll | src/sq_imaging.c:65-71 | the loop's result is the linear scaling of the image |
| SqImaging.LinearScale | src/sq_imaging.c:50-72 | the rows·cols values are replaced by their linear scaling, and the rest of the buffer is unchanged |
| SqImaging.ScaleValue | src/sq_imaging.c:67-69 | min scales to 0 and max to 255 |
| SqImaging.ScaleValueRange | src/sq_imaging.c:67-69 | a value between min and max scales into [0, 255], with min to 0 and max to 255 |
| SqImaging.ScaleValueMonotone | src/sq_imaging.c:67-69 | scaling preserves order, both ways |
| SqImaging.LinearScaleRange | src/sq_imaging.c:56-71 | every scaled pixel is in [0, 255]; the minimum maps to 0 and the maximum to 255 |
| SqImaging.LinearScaleMonotone | src/sq_imaging.c:56-71 | the scaled image orders pixels as the input does |
| SqImaging.NoScale | src/sq_imaging.c:45-48 | the buffer is unchanged |
| SqImaging.PixelByte | src/sq_imaging.c:197-202 | values below 1 give 0, values from 255 on give 255, and a value in [0, 256) gives its integer part |
| SqImaging.PixelByteIsClampedFloor | src/sq_imaging.c:197-202 | negative values give 0; values above 255 give 255; otherwise the byte is the integer part |
| SqImaging.PixelByteMonotone | src/sq_imaging.c:197-202 | larger values never give smaller bytes |
| SqImaging.PixelByteWhole | src/sq_imaging.c:202 | a whole value 0..255 gives itself |
| SqImaging.Digit | src/sq_imaging.c:190-191 | a decimal digit is a character from '0' to '9' |
| SqImaging.Decimal | src/sq_imaging.c:190-191 | `%u` prints a non-empty string of digits |
| SqImaging.DigitValue | src/sq_imaging.c:190-191 | a digit character reads back as its value |
| SqImaging.DecimalRoundTrip | src/sq_imaging.c:190-191 | a printed number reads back as itself |
| SqImaging.DecimalNoLeadingZero | src/sq_imaging.c:190-191 | the printed number starts with '0' iff it is 0 |
| SqImaging.Ascii | src/sq_imaging.c:189-191 | the header text as bytes, one byte per character |
| SqImaging.Pixels | src/sq_imaging.c:193-204 | one byte per value, each the clamped, truncated value |
| SqImaging.WritePnm | src/sq_imaging.c:181-205 | the output is the header "P5\n<cols> <rows>\n255\n" followed by the pixel bytes of the first rows·cols values |
| SqImaging.SplitAt | src/sq_imaging.c:189-191 | splitting at a separator leaves a strictly shorter rest |
| SqImaging.SplitAtPrefix | src/sq_imaging.c:189-191 | a field followed by its separator splits off exactly that field |
| SqImaging.SplitAtDigits | src/sq_imaging.c:189-191 | a printed number followed by a non-digit separator splits off exactly that number |
| SqImaging.DigitsOfDecimal | src/sq_imaging.c:190-191 | the digits of a printed number parse back to the number |
| SqImaging.ParseFields | src/sq_imaging.c:189-191 | a P5 header with width, height and maximum parses back to those fields |
| SqImaging.PnmHeader | src/sq_imaging.c:189-191 | the header starts with the "P5" line, has a space after the width, ends in a newline, and its length is that of the three decimal fields plus six bytes |
| SqImaging.PnmRoundTrip | src/sq_imaging.c:189-203 | the written header parses back to the columns, the rows and 255, with the pixel bytes following |
| SqImaging.WritePnmParses | src/sq_imaging.c:181-205 | the file written for an image parses back to its size, its maximum and exactly rows·cols pixel bytes |
| SqWindows.LookupWindow | src/sq_windows.c:18-23 | the name's dispatch: "hann", then "hamming", and otherwise unknown |
| SqWindows.LookupAccepts | src/sq_windows.c:18-23 | exactly "hann" and "hamming" are accepted, each naming its own window |
| SqWindows.SineCosineRejected | src/tests/window.c:54 | "sine/cosine", which the window program's usage text advertises, is rejected |
| SqWindows.Table | src/sq_windows.c:10-11 | entry n of the table is f(n, length), for n < length |
| SqWindows.MakeWindow | src/sq_windows.c:7-12 | as written: entries 0..length−1 get the Hann coefficients whatever window_function is; later entries are untouched |
| SqWindows.MakeWindowIntended | src/sq_windows.c:7-12 | entries 0..length−1 get window_function(n, length); later entries are untouched |
| SqWindows.MakeWindowFromName | src/sq_windows.c:14-27 | an unknown name gives ERR_UNKNOWN_WINDOW and leaves the buffer untouched; a known name gives 0 and the Hann table |
| SqWindows.MakeWindowFromNameIntended | src/sq_windows.c:14-27 | with the intended sq_make_window, a known name gives 0 and the table of the window it names |
| SqWindows.HammingWritesHann | src/sq_windows.c:7-25 | where the two coefficient functions differ, "hamming" does not get the Hamming table |
| SqWindows.IntendedTablesDiffer | src/sq_windows.c:18-25 | with the intended sq_make_window, "hann" and "hamming" give their own and different tables |

## Left out

- The command-line programs (every `main` under `src/blocks/` and `src/tests/`): option parsing, usage text and exit codes.
- Trigonometric and square-root numerics are not modelled. This covers `init_window` (src/sq_dsp.c:629-648), the Hann and Hamming formulas (src/sq_windows.c:29-37), `sq_abs`, `sq_phase`, `sq_scaleandrotate`, `sq_scale`, `sq_rotate`, `sq_mix`, `sq_power_scale` and `sq_randgaus`. Window values enter the model as given tables or functions.
- `sq_fft` is a wrapper around the FFTW library, which is foreign code. Only the channel swap around it is modelled (SqUtils.SwapInvolution).
- Dead or broken code has no behaviour to state, so it is not modelled:
  - `sq_bandpass` returns before doing anything;
  - `sq_chop` writes a buffer it never fills;
  - `sq_read_array` and `print_usage` take `sizeof` of a pointer;
  - `alloc_char_2d` and `alloc_float_2d` lose their allocation;
  - `sq_alloc_img` and `sq_write_img` end without a return value.
- I/O mechanics are left out: stream opening and closing, `write_log` (it reads the clock), progress and diagnostic messages on stderr, and `sq_ascii`. A failed `malloc` (ERR_MALLOC) and memory leaks on the early return paths are not modelled either; allocation always succeeds in the model.
- IEEE single-precision rounding is not modelled; samples are exact reals. Also not modelled: the `double` accumulators and the `float` casts in `sq_subavg` (src/sq_dsp.c:488-496), and the single-precision rounding of the division by `bin_size` at every trip in `sq_bin`.
- `sq_linear_scale`, `sq_no_scale`, `sq_imchop`, `sq_write_pnm` and `sq_average_lines` are declared `int`, but they end without a return statement. The model gives them no return value.
- The text `%e` formatting of `sq_read_stream` is not modelled: a value is printed as one token holding the value.
- SqUtils.ReadStream: the count `coli` is an `unsigned long` returned as `int`. The model returns the count unreduced; for 2^31 floats or more the C value would wrap.
- SqDspRaster.SumGroups requires num_to_sum >= 1. With 0 the C loop writes a zero raster forever.
- SqDspRaster.Pad requires in_length = 0 to be rejected by the guard as written. Inputs the guard accepts with in_length = 0 loop forever in C (see Findings).
- SqDspRaster.Bin requires out_length = 0 to be rejected by the guard as written. Inputs the guard accepts with out_length = 0 divide by zero in C (see Findings).
- SqDspRaster.Pad: the 32-bit wrap of the C's index arithmetic is not modelled. The guard as written accepts lengths of 2^31 and beyond (e.g. in_length = 2, out_length = 2^31 + 2). With out_length − in_length ≥ 2^31, the `int offset` and its doubling `offset * 2` (src/sq_dsp.c:777-780) overflow, so the C writes outside its buffer. The model still promises each raster placed at the exact offset.
- SqDspRaster.Bin: the wrap of the unsigned index `in_i<<1` (src/sq_dsp.c:865-866) is not modelled. For guard-accepted in_length ≥ 2^31 (e.g. in_length = 2^31 + 2, out_length = 1), the shift wraps from in_i = 2^31 onward, so the C re-reads the block from its first sample. The model takes the true mean of each block.
- SqImaging.LinearScale, SqImaging.WritePnm and SqImaging.ReadImg: the 32-bit unsigned products `rows * cols` (src/sq_imaging.c:59, :65, :193) and `rowi*cols` (src/sq_imaging.c:124) are taken unreduced. They wrap only for images of 2^32 pixels or more.
- SqWola.WolaBody requires only the first two guards of src/sq_dsp.c:653-662 (2 <= in_length <= MAX_ZOOM_LEN and folds >= 1), because the body needs nothing more: any overlap is accepted, 0 included, and it only selects the read length. It also requires `folds * in_length < 2^32`, because the C computes `wndwlen` as a 32-bit unsigned product (src/sq_dsp.c:679) and the model does not model the wrap-around. The window table is a parameter of length `folds * in_length`.
- SqImaging.LinearScale requires the image to be empty or to have min < max. A flat image divides by zero, giving NaN in C, and NaN is not modelled. rows·cols = 0 with an empty buffer is also out of the model, because the C reads `img_buf[0]`.
- SqImaging.ImChop requires the chop fractions to lie in [0, 1]. It also requires both images to hold the rows and columns as written. The unsigned conversions of negative products and the wrap-around of `col_last - col_first` are not modelled; a backwards range counts as empty.
- SqImaging.ReadImg and SqImaging.AverageLines take `rows`, `cols` and `avglines` as given. The signed/unsigned comparisons of the C indices (`unsigned int rowi < int rows`) are not modelled.

## Findings

| source | as written | input that shows it | evidently intended | confidence | as-written member | corrected member |
|---|---|---|---|---|---|---|
| src/sq_dsp.c:663 | `!((overlap < 1) && (overlap >= in_length))` rejects every overlap, so `sq_wola` always returns ERR_ARG_BOUNDS | in_length 64, folds 4, overlap 50 | reject unless 1 <= overlap < in_length, as the error message states (this also rejects the 0% overlap that the sqwola usage text offers; the body, SqWola.WolaBody, is proved for every overlap) | high, not executed | SqWola.WolaArgStatus, SqWola.WolaOverlapGuardRejects, SqWola.WolaGuardExample | SqWola.WolaArgStatusIntended, SqWola.WolaBody |
| src/sq_dsp.c:758-759 | the negation covers only the in_length test, so the guard accepts any in_length when out_length is out of range | in_length 0, out_length 1: fread of 0 items always succeeds and the loop never ends | reject unless both lengths are in [2, MAX_SMPLS_LEN] | high, not executed | SqDspRaster.PadArgStatus, SqDspRaster.PadGuardAdmitsEmptyInput | SqDspRaster.PadArgStatusIntended |
| src/sq_dsp.c:829-830 | the same mis-parenthesised guard in `sq_bin` | in_length 5, out_length 0: `in_length / out_length` divides by zero | reject unless both lengths are in [2, MAX_SMPLS_LEN] | high, not executed | SqDspRaster.BinArgStatus, SqDspRaster.BinGuardAdmitsZeroOutput | SqDspRaster.BinArgStatusIntended |
| src/sq_dsp.c:139-141 | the imaginary part is re1·im2 + im2·re1 = 2·re1·im2, not the complex product | (0+1i)·(1+0i) gives imaginary part 0 instead of 1 | re1·im2 + im1·re2 | high, not executed | SqDspMaps.CrossSampleCounterexample, SqDspMaps.CrossSampleNotCommutative | SqDspMaps.ProductCommutes, SqDspMaps.CrossSampleVersusProduct |
| src/sq_utils.c:221-222 | `sizeof(*buffer) * length / 2` bytes is half a sample more than length/2 samples when length is odd | length 3: samples s0, s1, s2 become s1, s0 and a sample made of the real part of s1 and one uninitialised float, so s2 is lost | swap the halves of the samples | medium, not executed | SqUtils.SwapOddLosesLastSample, SqUtils.SwapOddExample | SqUtils.HalfSwapRotates, SqUtils.HalfSwapKeepsSamples |
| src/sq_windows.c:11 | `sq_make_window` ignores `window_function` and always writes Hann coefficients | name "hamming" | entry n is window_function(n, length) | high, not executed | SqWindows.MakeWindow, SqWindows.HammingWritesHann | SqWindows.MakeWindowIntended, SqWindows.MakeWindowFromNameIntended, SqWindows.IntendedTablesDiffer |
