/** The utility kernels of src/sq_utils.c: the half-swap of an FFT buffer, the 8-bit
    sampler, the column writer of the text dump and the error-code messages. */
module SqUtils {
  import opened SqConstants
  import opened SqStreams
  import opened SqDspMaps
  import opened SqDspRaster

  // ---------------------------------------------------------------------------------
  // sq_channelswap
  // ---------------------------------------------------------------------------------

  /** `memcpy(&dst[dst_at], &src[src_at], n floats)` between two distinct buffers. */
  method Memcpy(dst: array<real>, dst_at: nat, src: array<real>, src_at: nat, n: nat)
    requires dst != src && dst_at + n <= dst.Length && src_at + n <= src.Length
    modifies dst
    ensures dst[dst_at..dst_at + n] == src[src_at..src_at + n]
    ensures dst[..dst_at] == old(dst[..dst_at]) && dst[dst_at + n..] == old(dst[dst_at + n..])
  {
    var i := 0;
    while i < n
      invariant 0 <= i <= n
      invariant dst[dst_at..dst_at + i] == src[src_at..src_at + i]
      invariant dst[..dst_at] == old(dst[..dst_at]) && dst[dst_at + i..] == old(dst[dst_at + i..])
    {
      dst[dst_at + i] := src[src_at + i];
      i := i + 1;
      assert dst[dst_at..dst_at + i] == dst[dst_at..dst_at + i - 1] + [dst[dst_at + i - 1]];
      assert src[src_at..src_at + i] == src[src_at..src_at + i - 1] + [src[src_at + i - 1]];
    }
  }

  /** The float buffer that sq_channelswap leaves behind, for a buffer x of `length`
      complex samples (2*length floats). The copies are sized in bytes as
      sizeof(fftwf_complex)*length/2, that is `length` floats each, and start at float
      h = 2*(length/2). For even lengths the two halves trade places; for odd lengths
      the second copy starts one float early, and the last float of the result comes
      from the uninitialised temporary, given here as `junk`. */
  function SwapFloats(x: seq<real>, length: nat, junk: real): (r: seq<real>)
    requires |x| == 2 * length
    ensures |r| == |x|
  {
    var h := 2 * (length / 2);
    seq(2 * length, p requires 0 <= p < 2 * length =>
          if p < h then x[p + h] else if p < h + length then x[p - h] else junk)
  }

  /** sq_channelswap on a buffer of 2*length floats. */
  method ChannelSwap(buffer: array<real>, length: nat, junk: real)
    requires buffer.Length == 2 * length
    modifies buffer
    ensures buffer[..] == SwapFloats(old(buffer[..]), length, junk)
  {
    ghost var x := buffer[..];
    var arr := new real[2 * length](_ => junk);
    var h := 2 * (length / 2);
    Memcpy(arr, 0, buffer, h, length);
    ghost var a1 := arr[..];
    Memcpy(arr, h, buffer, 0, length);
    ghost var a2 := arr[..];
    SwapAssembled(x, length, junk, h, a1, a2);
    Memcpy(buffer, 0, arr, 0, 2 * length);
    assert buffer[..] == buffer[0..2 * length];
    assert a2 == arr[0..2 * length];
  }

  /** The temporary after both copies of sq_channelswap. */
  lemma SwapAssembled(x: seq<real>, length: nat, junk: real, h: nat, a1: seq<real>, a2: seq<real>)
    requires |x| == 2 * length && h == 2 * (length / 2) && |a1| == 2 * length == |a2|
    requires a1[..length] == x[h..h + length]
    requires forall p :: length <= p < 2 * length ==> a1[p] == junk
    requires a2[h..h + length] == x[..length]
    requires a2[..h] == a1[..h] && a2[h + length..] == a1[h + length..]
    ensures a2 == SwapFloats(x, length, junk)
  {
    forall p | 0 <= p < 2 * length
      ensures a2[p] == SwapFloats(x, length, junk)[p]
    {
      if p < h {
        assert a2[p] == a2[..h][p] == a1[..h][p] == a1[..length][p];
      } else if p < h + length {
        assert a2[p] == a2[h..h + length][p - h];
      } else {
        assert a2[p] == a2[h + length..][p - h - length] == a1[h + length..][p - h - length];
      }
    }
  }

  /** For even lengths sq_channelswap and sq_fftflip do the same thing. */
  lemma SwapEvenIsFlip(x: seq<real>, length: nat, junk: real)
    requires |x| == 2 * length && length % 2 == 0
    ensures SwapFloats(x, length, junk) == FlipFloats(x, length)
  {
    forall p | 0 <= p < 2 * length
      ensures SwapFloats(x, length, junk)[p] == FlipFloats(x, length)[p]
    {
      FlipFloatsEven(x, length, length / 2, p);
    }
  }

  /** For an even number of samples the swap is the half-swap of the samples: the
      negative-frequency half moves in front of the positive one. */
  lemma ChannelSwapIsHalfSwap(f: seq<Cmplx>, junk: real)
    requires |f| % 2 == 0
    ensures SwapFloats(Interleave(f), |f|, junk) == Interleave(HalfSwap(f))
  {
    SwapEvenIsFlip(Interleave(f), |f|, junk);
    FlipEvenIsHalfSwap(f);
  }

  /** The half-swap is a rotation: sample i comes from sample (i + n/2) mod n. */
  lemma HalfSwapRotates(f: seq<Cmplx>, i: nat)
    requires i < |f|
    ensures HalfSwap(f)[i] == f[(i + |f| / 2) % |f|]
  {
    var n, h := |f|, |f| / 2;
    if i < n - h {
      DivUnique(i + h, n, 0, i + h);
    } else {
      DivUnique(i + h, n, 1, i + h - n);
    }
  }

  /** The half-swap of an even number of samples undoes itself, so swapping before the
      inverse FFT restores the order produced before the forward swap. */
  lemma HalfSwapInvolution(f: seq<Cmplx>)
    requires |f| % 2 == 0
    ensures HalfSwap(HalfSwap(f)) == f
  {
    var h := |f| / 2;
    assert HalfSwap(f)[..h] == f[h..];
    assert HalfSwap(f)[h..] == f[..h];
  }

  /** The same at float level, whatever the uninitialised floats hold. */
  lemma SwapInvolution(x: seq<real>, length: nat, junk1: real, junk2: real)
    requires |x| == 2 * length && length % 2 == 0
    ensures SwapFloats(SwapFloats(x, length, junk1), length, junk2) == x
  {
    SwapEvenIsFlip(x, length, junk1);
    SwapEvenIsFlip(SwapFloats(x, length, junk1), length, junk2);
    FlipFloatsInvolution(x, length);
  }

  /** For an odd number of samples the last sample is lost: the result is floats
      n-1 .. 2n-3 of the input, then floats 0 .. n-1, then one uninitialised float. */
  lemma SwapOddLosesLastSample(x: seq<real>, length: nat, junk: real)
    requires |x| == 2 * length && length % 2 == 1
    ensures SwapFloats(x, length, junk) == x[length - 1..2 * length - 2] + x[..length] + [junk]
  {
    var r := SwapFloats(x, length, junk);
    var e := x[length - 1..2 * length - 2] + x[..length] + [junk];
    assert 2 * (length / 2) == length - 1;
    forall p | 0 <= p < 2 * length
      ensures r[p] == e[p]
    {
    }
  }

  /** Three samples: the swap writes back sample 0 where sample 1 was, and sample 2
      appears nowhere in the result. */
  lemma SwapOddExample(a: real, b: real, c: real, d: real, e: real, f: real, junk: real)
    ensures SwapFloats([a, b, c, d, e, f], 3, junk) == [c, d, a, b, c, junk]
  {
    SwapOddLosesLastSample([a, b, c, d, e, f], 3, junk);
  }

  /** The rotation intended for any length keeps every sample, since it is a
      rotation: it is a permutation of the buffer. */
  lemma HalfSwapKeepsSamples(f: seq<Cmplx>)
    ensures multiset(HalfSwap(f)) == multiset(f)
  {
    var h := |f| / 2;
    assert f == f[..h] + f[h..];
  }

  // ---------------------------------------------------------------------------------
  // sq_sample
  // ---------------------------------------------------------------------------------

  /** A signed 8-bit sample as read from the digitiser. */
  newtype int8 = x: int | -128 <= x < 128

  /** The float of position p of the interleaved I/Q stream: the real part is copied,
      the imaginary part negated. */
  function SampleFloat(b: int8, p: nat): real
  {
    if p % 2 == REAL then b as real else -(b as real)
  }

  /** One chunk of signed bytes r0, i0, r1, i1, ... converted to floats. */
  function SampleFrame(b: seq<int8>): (r: seq<real>)
    ensures |r| == |b|
  {
    seq(|b|, p requires 0 <= p < |b| => SampleFloat(b[p], p))
  }

  /** The chunk read as complex samples without the sign change. */
  function Widen(b: seq<int8>): (x: seq<real>)
    ensures |x| == |b| && forall p :: 0 <= p < |b| ==> x[p] == b[p] as real
  {
    seq(|b|, p requires 0 <= p < |b| => b[p] as real)
  }

  /** Each I/Q byte pair comes out of sq_sample with its imaginary sign flipped. */
  lemma SampleIsConjugate(b: seq<int8>)
    requires |b| % 2 == 0
    ensures Deinterleave(SampleFrame(b)) == ConjugateFrame(Deinterleave(Widen(b)))
  {
    forall i | 0 <= i < |b| / 2
      ensures Deinterleave(SampleFrame(b))[i] == ConjugateFrame(Deinterleave(Widen(b)))[i]
    {
      assert (2 * i) % 2 == 0 && (2 * i + 1) % 2 == 1;
    }
  }

  /** Every float written lies in [-128, 128]: the negated imaginary part of -128 is 128. */
  lemma SampleBounds(b: seq<int8>, p: nat)
    requires p < |b|
    ensures -128.0 <= SampleFrame(b)[p] <= 128.0
    ensures p % 2 == REAL ==> SampleFrame(b)[p] <= 127.0
  {
  }

  /** The conversion loop of one chunk of nsamples pairs. */
  method SampleBlock(smpls_in: array<int8>, smpls_out: array<real>, nsamples: nat)
    requires smpls_in.Length == 2 * nsamples == smpls_out.Length
    modifies smpls_out
    ensures smpls_out[..] == SampleFrame(smpls_in[..])
  {
    var smpli := 0;
    while smpli < nsamples
      invariant 0 <= smpli <= nsamples
      invariant forall p :: 0 <= p < 2 * smpli ==> smpls_out[p] == SampleFloat(smpls_in[p], p)
    {
      var q := 2 * smpli;
      assert q % 2 == REAL && (q + 1) % 2 == IMAG;
      smpls_out[q + REAL] := smpls_in[q + REAL] as real;
      smpls_out[q + IMAG] := -(smpls_in[q + IMAG] as real);
      smpli := smpli + 1;
    }
  }

  /** sq_sample: `nsamples` (unsigned) must lie in [1, MAX_SMPLS_LEN]. Every complete
      chunk of nsamples byte pairs becomes one chunk of 2*nsamples floats; a trailing
      partial chunk is dropped. */
  method Sample(input: seq<int8>, nsamples: nat) returns (status: int, out: seq<seq<real>>)
    ensures status == (if 0 < nsamples <= MAX_SMPLS_LEN then 0 else ERR_ARG_BOUNDS)
    ensures out == (if 0 < nsamples <= MAX_SMPLS_LEN
                    then MapFrames(SampleFrame, Frames(input, 2 * nsamples)) else [])
  {
    if (nsamples <= 0) || (nsamples > MAX_SMPLS_LEN) {
      return ERR_ARG_BOUNDS, [];
    }
    var smpls_in := new int8[2 * nsamples];
    var smpls_out := new real[2 * nsamples];
    status, out := 0, [];
    var pos: nat := 0;
    while true
      invariant pos <= |input|
      invariant out + MapFrames(SampleFrame, Frames(input[pos..], 2 * nsamples))
                == MapFrames(SampleFrame, Frames(input, 2 * nsamples))
      decreases |input| - pos
    {
      var ok, next := Fread(input, pos, smpls_in, 0, 2 * nsamples);
      MapAdvance(SampleFrame, input, pos, 2 * nsamples, ok, next, smpls_in[..], out);
      if !ok {
        break;
      }
      SampleBlock(smpls_in, smpls_out, nsamples);
      out := out + [smpls_out[..]];
      pos := next;
    }
  }

  /** The floats written for a stream are the conjugated samples of its complete chunks. */
  lemma SampleStreamIsConjugate(input: seq<int8>, nsamples: nat, j: nat)
    requires 0 < nsamples && j < |Frames(input, 2 * nsamples)|
    ensures Deinterleave(MapFrames(SampleFrame, Frames(input, 2 * nsamples))[j])
            == ConjugateFrame(Deinterleave(Widen(Frames(input, 2 * nsamples)[j])))
  {
    var b := Frames(input, 2 * nsamples)[j];
    assert |b| == 2 * nsamples;
    SampleIsConjugate(b);
  }

  // ---------------------------------------------------------------------------------
  // sq_read_stream
  // ---------------------------------------------------------------------------------

  /** What the text dump writes: " %e" of one float, or a line break. The decimal
      rendering of a float is not part of this model. */
  datatype Token = Value(v: real) | Newline

  /** The text dump of the floats xs with `ncolumns` values per line: every value is
      written, and a line break follows every ncolumns-th value. */
  function Columns(xs: seq<real>, ncolumns: nat): (ts: seq<Token>)
    requires ncolumns > 0
    ensures |xs| <= |ts| <= 2 * |xs|
    ensures xs != [] ==> ts[|ts| - 1] == if |xs| % ncolumns == 0 then Newline else Value(xs[|xs| - 1])
    decreases |xs|
  {
    if xs == [] then [] else Columns(xs[..|xs| - 1], ncolumns) + Cell(xs[|xs| - 1], |xs|, ncolumns)
  }

  /** What is written for the count-th value v. */
  function Cell(v: real, count: nat, ncolumns: nat): seq<Token>
    requires ncolumns > 0
  {
    [Value(v)] + (if count % ncolumns == 0 then [Newline] else [])
  }

  /** The values of a token sequence, in order. */
  function ValuesOf(ts: seq<Token>): seq<real>
  {
    if ts == [] then []
    else ValuesOf(ts[..|ts| - 1]) + (if ts[|ts| - 1].Value? then [ts[|ts| - 1].v] else [])
  }

  /** The number of line breaks of a token sequence. */
  function Lines(ts: seq<Token>): nat
  {
    if ts == [] then 0 else Lines(ts[..|ts| - 1]) + (if ts[|ts| - 1].Newline? then 1 else 0)
  }

  lemma {:induction false} ValuesOfAppend(a: seq<Token>, b: seq<Token>)
    ensures ValuesOf(a + b) == ValuesOf(a) + ValuesOf(b)
    ensures Lines(a + b) == Lines(a) + Lines(b)
    decreases |b|
  {
    if b == [] {
      assert a + b == a;
    } else {
      assert (a + b)[..|a + b| - 1] == a + b[..|b| - 1];
      ValuesOfAppend(a, b[..|b| - 1]);
    }
  }

  lemma CellTokens(v: real, count: nat, ncolumns: nat)
    requires ncolumns > 0
    ensures ValuesOf(Cell(v, count, ncolumns)) == [v]
    ensures Lines(Cell(v, count, ncolumns)) == if count % ncolumns == 0 then 1 else 0
  {
    var c := Cell(v, count, ncolumns);
    var one := [Value(v)];
    assert one[..|one| - 1] == [];
    assert ValuesOf(one) == [v];
    assert Lines(one) == 0;
    if count % ncolumns == 0 {
      assert c[..|c| - 1] == one;
    } else {
      assert c == one;
    }
  }

  /** Every float read is written once, in order. */
  lemma {:induction false} ColumnsValues(xs: seq<real>, ncolumns: nat)
    requires ncolumns > 0
    ensures ValuesOf(Columns(xs, ncolumns)) == xs
    decreases |xs|
  {
    if xs != [] {
      var init, v := xs[..|xs| - 1], xs[|xs| - 1];
      ValuesOfAppend(Columns(init, ncolumns), Cell(v, |xs|, ncolumns));
      CellTokens(v, |xs|, ncolumns);
      ColumnsValues(init, ncolumns);
      assert init + [v] == xs;
    }
  }

  /** n values make n / ncolumns complete lines. */
  lemma {:induction false} ColumnsLines(xs: seq<real>, ncolumns: nat)
    requires ncolumns > 0
    ensures Lines(Columns(xs, ncolumns)) == |xs| / ncolumns
    decreases |xs|
  {
    if xs != [] {
      var init, v := xs[..|xs| - 1], xs[|xs| - 1];
      ValuesOfAppend(Columns(init, ncolumns), Cell(v, |xs|, ncolumns));
      CellTokens(v, |xs|, ncolumns);
      ColumnsLines(init, ncolumns);
      CountStep(|xs|, ncolumns);
    }
  }

  lemma CountStep(m: nat, n: nat)
    requires m > 0 && n > 0
    ensures m / n == (m - 1) / n + (if m % n == 0 then 1 else 0)
  {
    var q, r := (m - 1) / n, (m - 1) % n;
    if r + 1 == n {
      DivUnique(m, n, q + 1, 0);
    } else {
      DivUnique(m, n, q, r + 1);
    }
  }

  /** sq_read_stream: ncolumns <= 0 is rejected; otherwise every float of the stream is
      written as a token, with a line break after every ncolumns-th one, and the number
      of floats read is returned. */
  method ReadStream(input: seq<real>, ncolumns: int) returns (status: int, out: seq<Token>)
    ensures ncolumns <= 0 ==> status == ERR_ARG_BOUNDS && out == []
    ensures ncolumns > 0 ==> status == |input| && out == Columns(input, ncolumns)
  {
    if ncolumns <= 0 {
      return ERR_ARG_BOUNDS, [];
    }
    var val := new real[1];
    var coli: nat := 0;
    out := [];
    while true
      invariant coli <= |input|
      invariant out == Columns(input[..coli], ncolumns)
      decreases |input| - coli
    {
      var ok, next := Fread(input, coli, val, 0, 1);
      if !ok {
        break;
      }
      assert val[0] == input[coli];
      assert input[..coli + 1][..coli] == input[..coli];
      out := out + [Value(val[0])];
      coli := coli + 1;
      if coli % ncolumns == 0 {
        out := out + [Newline];
      }
      assert out == Columns(input[..coli - 1], ncolumns) + Cell(input[coli - 1], coli, ncolumns);
    }
    assert input[..coli] == input;
    status := coli;
  }

  // ---------------------------------------------------------------------------------
  // sq_error_handle
  // ---------------------------------------------------------------------------------

  /** The message sq_error_handle prints for a known error code, if any. */
  function KnownMessage(errcode: int): (msg: string)
    ensures msg != "" <==> ERR_MALLOC <= errcode <= ERR_ARG_BOUNDS
  {
    if errcode == ERR_ARG_BOUNDS then "Argument(s) out-of-bounds."
    else if errcode == ERR_STREAM_OPEN then "Could not open stream."
    else if errcode == ERR_STREAM_CLOSE then "Could not close stream."
    else if errcode == ERR_STREAM_READ then "Could not read from stream."
    else if errcode == ERR_STREAM_WRITE then "Could not write to stream."
    else if errcode == ERR_MALLOC then "Could not allocate memory."
    else ""
  }

  /** Everything sq_error_handle writes to stderr for `errcode`. */
  function ErrorHandle(errcode: int): (text: string)
    ensures |text| > 0 && text[|text| - 1] == '\n'
    ensures text == "\n" <==> errcode >= 0
  {
    var msg := KnownMessage(errcode);
    if msg != "" then msg + "\n"
    else if errcode < 0 then "Unhandled error.\n"
    else "\n"
  }

  /** The six handled codes have six different messages, none of them the generic one;
      every other negative code, among them ERR_UNKNOWN_OPTION and ERR_UNKNOWN_WINDOW,
      gets the generic one. */
  lemma ErrorMessagesDistinct(a: int, b: int)
    requires ERR_MALLOC <= a <= ERR_ARG_BOUNDS && ERR_MALLOC <= b <= ERR_ARG_BOUNDS
    ensures ErrorHandle(a) != "Unhandled error.\n"
    ensures a != b ==> ErrorHandle(a) != ErrorHandle(b)
  {
    // The messages are longer than the generic one, and their eleventh characters
    // tell them apart.
    ErrorTag(a);
    ErrorTag(b);
    if a != b {
      TagInjective(a, b);
      assert ErrorHandle(a)[10] != ErrorHandle(b)[10];
    }
  }

  function Tag(errcode: int): char
  {
    if errcode == ERR_ARG_BOUNDS then ')'
    else if errcode == ERR_STREAM_OPEN then 'o'
    else if errcode == ERR_STREAM_CLOSE then 'c'
    else if errcode == ERR_STREAM_READ then 'r'
    else if errcode == ERR_STREAM_WRITE then 'w'
    else 'a'
  }

  lemma TagInjective(a: int, b: int)
    requires ERR_MALLOC <= a <= ERR_ARG_BOUNDS && ERR_MALLOC <= b <= ERR_ARG_BOUNDS && a != b
    ensures Tag(a) != Tag(b)
  {
  }

  lemma ErrorTag(errcode: int)
    requires ERR_MALLOC <= errcode <= ERR_ARG_BOUNDS
    ensures |ErrorHandle(errcode)| > 20 && ErrorHandle(errcode)[10] == Tag(errcode)
  {
    var m := KnownMessage(errcode);
    assert ErrorHandle(errcode) == m + "\n";
  }

  lemma ErrorUnhandled(errcode: int)
    requires errcode < ERR_MALLOC
    ensures ErrorHandle(errcode) == "Unhandled error.\n"
    ensures ErrorHandle(ERR_UNKNOWN_WINDOW) == "Unhandled error.\n"
  {
  }
}
