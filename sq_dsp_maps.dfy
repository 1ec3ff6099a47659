/** The per-sample filters of src/sq_dsp.c: each reads blocks of `in_length` complex
    samples, rewrites every sample of the block in place by a closed formula and writes
    the block, until a read comes up short. */
module SqDspMaps {
  import opened SqConstants
  import opened SqStreams

  /** The block-length guard of most filters: 2 <= in_length <= MAX_SMPLS_LEN. */
  predicate LengthOk(in_length: nat)
  {
    2 <= in_length <= MAX_SMPLS_LEN
  }

  /** The guard of sq_abs, sq_power and sq_crossmultiply, which also reject MAX_SMPLS_LEN. */
  predicate LengthOkStrict(in_length: nat)
  {
    2 <= in_length < MAX_SMPLS_LEN
  }

  /** The blocks written when every block read is passed through `f`. */
  function MapFrames<A, B>(f: seq<A> -> seq<B>, fs: seq<seq<A>>): (r: seq<seq<B>>)
    ensures |r| == |fs| && forall j :: 0 <= j < |fs| ==> r[j] == f(fs[j])
  {
    seq(|fs|, j requires 0 <= j < |fs| => f(fs[j]))
  }

  lemma MapFramesCons<A, B>(f: seq<A> -> seq<B>, x: seq<A>, xs: seq<seq<A>>)
    ensures MapFrames(f, [x] + xs) == [f(x)] + MapFrames(f, xs)
  {
  }

  /** One turn of the read-transform-write loop: the block just read is the first of the
      blocks still to come, and a short read leaves none. */
  lemma ReadStep<T>(input: seq<T>, pos: nat, n: nat, ok: bool, next: nat, frame: seq<T>)
    requires 0 < n && pos <= |input|
    requires ok == (pos + n <= |input|) && next == (if ok then pos + n else |input|)
    requires ok ==> frame == input[pos..next]
    ensures ok ==> Frames(input[pos..], n) == [frame] + Frames(input[next..], n)
    ensures !ok ==> Frames(input[pos..], n) == []
  {
    if ok {
      FramesUnfold(input, pos, n);
    }
  }

  /** The loop invariant of every read-transform-write filter survives one read: after a
      full read the transformed block is the next one written, and after a short read
      everything has been written. */
  lemma MapAdvance<A, B>(f: seq<A> -> seq<B>, input: seq<A>, pos: nat, n: nat, ok: bool, next: nat,
                         frame: seq<A>, out: seq<seq<B>>)
    requires 0 < n && pos <= |input|
    requires ok == (pos + n <= |input|) && next == (if ok then pos + n else |input|)
    requires ok ==> frame == input[pos..next]
    requires out + MapFrames(f, Frames(input[pos..], n)) == MapFrames(f, Frames(input, n))
    ensures ok ==> (out + [f(frame)]) + MapFrames(f, Frames(input[next..], n)) == MapFrames(f, Frames(input, n))
    ensures !ok ==> out == MapFrames(f, Frames(input, n))
  {
    ReadStep(input, pos, n, ok, next, frame);
    if ok {
      MapFramesCons(f, frame, Frames(input[next..], n));
    }
  }

  // ---------------------------------------------------------------- sq_power

  /** The power of one sample is real and non-negative, and zero at the zero sample. */
  function PowerSample(c: Cmplx): (r: Cmplx)
    ensures r.im == 0.0 && r.re >= 0.0
    ensures c == Zero ==> r == Zero
  {
    assert c.re * c.re >= 0.0 && c.im * c.im >= 0.0;
    Cmplx(c.re * c.re + c.im * c.im, 0.0)
  }

  function PowerFrame(f: seq<Cmplx>): (r: seq<Cmplx>)
    ensures |r| == |f| && forall i :: 0 <= i < |f| ==> r[i] == PowerSample(f[i])
  {
    seq(|f|, i requires 0 <= i < |f| => PowerSample(f[i]))
  }

  /** One block of sq_power, in place. */
  method PowerBlock(in_buffer: array<Cmplx>)
    modifies in_buffer
    ensures in_buffer[..] == PowerFrame(old(in_buffer[..]))
  {
    ghost var frame := in_buffer[..];
    var smpli := 0;
    while smpli < in_buffer.Length
      invariant 0 <= smpli <= in_buffer.Length
      invariant forall i :: 0 <= i < smpli ==> in_buffer[i] == PowerSample(frame[i])
      invariant forall i :: smpli <= i < in_buffer.Length ==> in_buffer[i] == frame[i]
    {
      var c := in_buffer[smpli];
      in_buffer[smpli] := Cmplx(c.re * c.re + c.im * c.im, 0.0);
      smpli := smpli + 1;
    }
    assert in_buffer[..] == PowerFrame(frame);
  }

  /** sq_power: every sample becomes (re^2 + im^2, 0). */
  method Power(input: seq<Cmplx>, in_length: nat) returns (status: int, out: seq<seq<Cmplx>>)
    ensures status == (if LengthOkStrict(in_length) then 0 else ERR_ARG_BOUNDS)
    ensures out == (if LengthOkStrict(in_length) then MapFrames(PowerFrame, Frames(input, in_length)) else [])
  {
    if (in_length < 2) || (in_length >= MAX_SMPLS_LEN) {
      return ERR_ARG_BOUNDS, [];
    }
    var in_buffer := new Cmplx[in_length];
    status, out := 0, [];
    var pos: nat := 0;
    while true
      invariant pos <= |input|
      invariant out + MapFrames(PowerFrame, Frames(input[pos..], in_length))
                == MapFrames(PowerFrame, Frames(input, in_length))
      decreases |input| - pos
    {
      var ok, next := Fread(input, pos, in_buffer, 0, in_length);
      ghost var frame := in_buffer[..];
      MapAdvance(PowerFrame, input, pos, in_length, ok, next, frame, out);
      if !ok {
        break;
      }
      PowerBlock(in_buffer);
      out := out + [in_buffer[..]];
      pos := next;
    }
  }

  /** Worked example: the sample 3 + 4i has power 25. */
  lemma PowerOfThreeFour()
    ensures PowerSample(Cmplx(3.0, 4.0)) == Cmplx(25.0, 0.0)
  {
  }

  // ---------------------------------------------------------------- sq_conjugate

  /** The conjugate is the mirror image across the real axis. */
  function ConjugateSample(c: Cmplx): (r: Cmplx)
    ensures r.re == c.re && r.im + c.im == 0.0
  {
    Cmplx(c.re, c.im * -1.0)
  }

  function ConjugateFrame(f: seq<Cmplx>): (r: seq<Cmplx>)
    ensures |r| == |f| && forall i :: 0 <= i < |f| ==> r[i] == ConjugateSample(f[i])
  {
    seq(|f|, i requires 0 <= i < |f| => ConjugateSample(f[i]))
  }

  /** sq_conjugate: negates the imaginary part of every sample. */
  method Conjugate(input: seq<Cmplx>, in_length: nat) returns (status: int, out: seq<seq<Cmplx>>)
    ensures status == (if LengthOk(in_length) then 0 else ERR_ARG_BOUNDS)
    ensures out == (if LengthOk(in_length) then MapFrames(ConjugateFrame, Frames(input, in_length)) else [])
  {
    if !((in_length >= 2) && (in_length <= MAX_SMPLS_LEN)) {
      return ERR_ARG_BOUNDS, [];
    }
    var in_buffer := new Cmplx[in_length];
    status, out := 0, [];
    var pos: nat := 0;
    while true
      invariant pos <= |input|
      invariant out + MapFrames(ConjugateFrame, Frames(input[pos..], in_length))
                == MapFrames(ConjugateFrame, Frames(input, in_length))
      decreases |input| - pos
    {
      var ok, next := Fread(input, pos, in_buffer, 0, in_length);
      ghost var frame := in_buffer[..];
      MapAdvance(ConjugateFrame, input, pos, in_length, ok, next, frame, out);
      if !ok {
        break;
      }
      var smpli := 0;
      while smpli < in_length
        invariant 0 <= smpli <= in_length
        invariant forall i :: 0 <= i < smpli ==> in_buffer[i] == ConjugateSample(frame[i])
        invariant forall i :: smpli <= i < in_length ==> in_buffer[i] == frame[i]
      {
        in_buffer[smpli] := in_buffer[smpli].(im := in_buffer[smpli].im * -1.0);
        smpli := smpli + 1;
      }
      assert in_buffer[..] == ConjugateFrame(frame);
      out := out + [in_buffer[..]];
      pos := next;
    }
  }

  /** Conjugating twice restores every block. */
  lemma ConjugateInvolution(f: seq<Cmplx>)
    ensures ConjugateFrame(ConjugateFrame(f)) == f
  {
    assert forall i :: 0 <= i < |f| ==> ConjugateFrame(ConjugateFrame(f))[i] == f[i];
  }

  /** Feeding the output of sq_conjugate back through sq_conjugate gives back the blocks read. */
  lemma {:induction false} ConjugateStreamInvolution(input: seq<Cmplx>, n: nat)
    requires n > 0
    ensures MapFrames(ConjugateFrame, Frames(Flatten(MapFrames(ConjugateFrame, Frames(input, n))), n))
            == Frames(input, n)
  {
    var fs := Frames(input, n);
    var once := MapFrames(ConjugateFrame, fs);
    FramesFlatten(once, n);
    forall j | 0 <= j < |fs|
      ensures ConjugateFrame(once[j]) == fs[j]
    {
      ConjugateInvolution(fs[j]);
    }
  }

  /** A conjugated sample has the same power. */
  lemma PowerOfConjugate(c: Cmplx)
    ensures PowerSample(ConjugateSample(c)) == PowerSample(c)
  {
  }

  // ---------------------------------------------------------------- sq_offset

  /** The offset sample is displaced from c by exactly (real_delta, imag_delta). */
  function OffsetSample(c: Cmplx, real_delta: real, imag_delta: real): (r: Cmplx)
    ensures r.re - c.re == real_delta && r.im - c.im == imag_delta
  {
    Cmplx(c.re + real_delta, c.im + imag_delta)
  }

  function OffsetFrame(f: seq<Cmplx>, real_delta: real, imag_delta: real): (r: seq<Cmplx>)
    ensures |r| == |f| && forall i :: 0 <= i < |f| ==> r[i] == OffsetSample(f[i], real_delta, imag_delta)
  {
    seq(|f|, i requires 0 <= i < |f| => OffsetSample(f[i], real_delta, imag_delta))
  }

  /** sq_offset: adds (real_delta, imag_delta) to every sample. */
  method Offset(input: seq<Cmplx>, in_length: nat, real_delta: real, imag_delta: real)
    returns (status: int, out: seq<seq<Cmplx>>)
    ensures status == (if LengthOk(in_length) then 0 else ERR_ARG_BOUNDS)
    ensures out == (if LengthOk(in_length)
                    then MapFrames(f => OffsetFrame(f, real_delta, imag_delta), Frames(input, in_length))
                    else [])
  {
    if !((in_length >= 2) && (in_length <= MAX_SMPLS_LEN)) {
      return ERR_ARG_BOUNDS, [];
    }
    ghost var F := (f: seq<Cmplx>) => OffsetFrame(f, real_delta, imag_delta);
    var in_buffer := new Cmplx[in_length];
    status, out := 0, [];
    var pos: nat := 0;
    while true
      invariant pos <= |input|
      invariant out + MapFrames(F, Frames(input[pos..], in_length)) == MapFrames(F, Frames(input, in_length))
      decreases |input| - pos
    {
      var ok, next := Fread(input, pos, in_buffer, 0, in_length);
      ghost var frame := in_buffer[..];
      MapAdvance(F, input, pos, in_length, ok, next, frame, out);
      if !ok {
        break;
      }
      var smpli := 0;
      while smpli < in_length
        invariant 0 <= smpli <= in_length
        invariant forall i :: 0 <= i < smpli ==> in_buffer[i] == OffsetSample(frame[i], real_delta, imag_delta)
        invariant forall i :: smpli <= i < in_length ==> in_buffer[i] == frame[i]
      {
        var c := in_buffer[smpli];
        in_buffer[smpli] := Cmplx(c.re + real_delta, c.im + imag_delta);
        smpli := smpli + 1;
      }
      assert in_buffer[..] == F(frame);
      out := out + [in_buffer[..]];
      pos := next;
    }
  }

  /** Two offsets add up, and an offset is undone by its negation. */
  lemma OffsetCompose(f: seq<Cmplx>, a: real, b: real, c: real, d: real)
    ensures OffsetFrame(OffsetFrame(f, a, b), c, d) == OffsetFrame(f, a + c, b + d)
    ensures OffsetFrame(OffsetFrame(f, a, b), -a, -b) == f
  {
    assert forall i :: 0 <= i < |f| ==> OffsetFrame(OffsetFrame(f, a, b), -a, -b)[i] == f[i];
  }

  // ---------------------------------------------------------------- sq_subavg

  /** Block mean of each part, as sq_subavg computes it. */
  function MeanRe(f: seq<Cmplx>): real
    requires |f| > 0
  {
    Sum(Reals(f)) / (|f| as real)
  }

  function MeanIm(f: seq<Cmplx>): real
    requires |f| > 0
  {
    Sum(Imags(f)) / (|f| as real)
  }

  function SubAvgFrame(f: seq<Cmplx>): (r: seq<Cmplx>)
    ensures |r| == |f|
    ensures forall i :: 0 <= i < |f| ==> r[i] == Cmplx(f[i].re - MeanRe(f), f[i].im - MeanIm(f))
  {
    if |f| == 0 then [] else
    var mr, mi := MeanRe(f), MeanIm(f);
    seq(|f|, i requires 0 <= i < |f| => Cmplx(f[i].re - mr, f[i].im - mi))
  }

  /** One block of sq_subavg: sum both parts, divide by the length, subtract. */
  method SubAvgBlock(in_buffer: array<Cmplx>)
    requires in_buffer.Length > 0
    modifies in_buffer
    ensures in_buffer[..] == SubAvgFrame(old(in_buffer[..]))
  {
    ghost var frame := in_buffer[..];
    var in_length := in_buffer.Length;
    // The mean of each part.
    var sumr, sumi := PartSums(in_buffer);
    var favgr := sumr / (in_length as real);
    var favgi := sumi / (in_length as real);
    // Remove the mean from every sample.
    var smpli := 0;
    while smpli < in_length
      invariant 0 <= smpli <= in_length
      invariant forall i :: 0 <= i < smpli ==> in_buffer[i] == Cmplx(frame[i].re - favgr, frame[i].im - favgi)
      invariant forall i :: smpli <= i < in_length ==> in_buffer[i] == frame[i]
    {
      var c := in_buffer[smpli];
      in_buffer[smpli] := Cmplx(c.re - favgr, c.im - favgi);
      smpli := smpli + 1;
    }
    assert in_buffer[..] == SubAvgFrame(frame);
  }

  /** The summing loop of sq_subavg: the sums of the real and of the imaginary parts. */
  method PartSums(in_buffer: array<Cmplx>) returns (sumr: real, sumi: real)
    ensures sumr == Sum(Reals(in_buffer[..])) && sumi == Sum(Imags(in_buffer[..]))
  {
    ghost var frame := in_buffer[..];
    sumr, sumi := 0.0, 0.0;
    var smpli := 0;
    while smpli < in_buffer.Length
      invariant 0 <= smpli <= in_buffer.Length
      invariant sumr == Sum(Reals(frame[..smpli])) && sumi == Sum(Imags(frame[..smpli]))
    {
      assert Reals(frame[..smpli + 1])[..smpli] == Reals(frame[..smpli]);
      assert Imags(frame[..smpli + 1])[..smpli] == Imags(frame[..smpli]);
      sumr := sumr + in_buffer[smpli].re;
      sumi := sumi + in_buffer[smpli].im;
      smpli := smpli + 1;
    }
    assert frame[..in_buffer.Length] == frame;
  }

  method SubAvg(input: seq<Cmplx>, in_length: nat) returns (status: int, out: seq<seq<Cmplx>>)
    ensures status == (if LengthOk(in_length) then 0 else ERR_ARG_BOUNDS)
    ensures out == (if LengthOk(in_length) then MapFrames(SubAvgFrame, Frames(input, in_length)) else [])
  {
    if !((in_length >= 2) && (in_length <= MAX_SMPLS_LEN)) {
      return ERR_ARG_BOUNDS, [];
    }
    var in_buffer := new Cmplx[in_length];
    status, out := 0, [];
    var pos: nat := 0;
    while true
      invariant pos <= |input|
      invariant out + MapFrames(SubAvgFrame, Frames(input[pos..], in_length))
                == MapFrames(SubAvgFrame, Frames(input, in_length))
      decreases |input| - pos
    {
      var ok, next := Fread(input, pos, in_buffer, 0, in_length);
      ghost var frame := in_buffer[..];
      MapAdvance(SubAvgFrame, input, pos, in_length, ok, next, frame, out);
      if !ok {
        break;
      }
      SubAvgBlock(in_buffer);
      out := out + [in_buffer[..]];
      pos := next;
    }
  }

  lemma {:induction false} SumShift(xs: seq<real>, c: real, ys: seq<real>)
    requires |ys| == |xs| && forall i :: 0 <= i < |xs| ==> ys[i] == xs[i] - c
    ensures Sum(ys) == Sum(xs) - (|xs| as real) * c
    decreases |xs|
  {
    if xs != [] {
      var k := |xs| - 1;
      SumShift(xs[..k], c, ys[..k]);
    }
  }

  /** Every block sq_subavg writes has mean zero in both parts. */
  lemma SubAvgZeroMean(f: seq<Cmplx>)
    requires |f| > 0
    ensures Sum(Reals(SubAvgFrame(f))) == 0.0 && Sum(Imags(SubAvgFrame(f))) == 0.0
  {
    var r := SubAvgFrame(f);
    var n := |f| as real;
    SumShift(Reals(f), MeanRe(f), Reals(r));
    SumShift(Imags(f), MeanIm(f), Imags(r));
    assert n * (Sum(Reals(f)) / n) == Sum(Reals(f));
    assert n * (Sum(Imags(f)) / n) == Sum(Imags(f));
  }

  /** Subtracting the average a second time changes nothing. */
  lemma SubAvgIdempotent(f: seq<Cmplx>)
    requires |f| > 0
    ensures SubAvgFrame(SubAvgFrame(f)) == SubAvgFrame(f)
  {
    var r := SubAvgFrame(f);
    SubAvgZeroMean(f);
    assert MeanRe(r) == 0.0 && MeanIm(r) == 0.0;
    assert forall i :: 0 <= i < |r| ==> SubAvgFrame(r)[i] == r[i];
  }

  // ---------------------------------------------------------------- sq_crossmultiply

  /** The per-sample formula of sq_crossmultiply as written: the imaginary part is
      re1*im2 + im2*re1, that is 2*re1*im2. */
  function CrossSample(a: Cmplx, b: Cmplx): (r: Cmplx)
    ensures r.re == a.re * b.re - a.im * b.im
    ensures r.im == 2.0 * a.re * b.im
  {
    Cmplx(a.re * b.re - a.im * b.im, a.re * b.im + b.im * a.re)
  }

  function CrossFrame(f: seq<Cmplx>, g: seq<Cmplx>): (r: seq<Cmplx>)
    requires |f| == |g|
    ensures |r| == |f| && forall i :: 0 <= i < |f| ==> r[i] == CrossSample(f[i], g[i])
  {
    seq(|f|, i requires 0 <= i < |f| => CrossSample(f[i], g[i]))
  }

  /** Blocks are read from both streams in lockstep until either comes up short. */
  function CrossStream(s1: seq<Cmplx>, s2: seq<Cmplx>, n: nat): seq<seq<Cmplx>>
    requires n > 0
    decreases |s1|
  {
    if |s1| < n || |s2| < n then []
    else [CrossFrame(s1[..n], s2[..n])] + CrossStream(s1[n..], s2[n..], n)
  }

  /** sq_crossmultiply: combines the j-th blocks of both streams sample by sample. */
  method CrossMultiply(input1: seq<Cmplx>, input2: seq<Cmplx>, in_length: nat)
    returns (status: int, out: seq<seq<Cmplx>>)
    ensures status == (if LengthOkStrict(in_length) then 0 else ERR_ARG_BOUNDS)
    ensures out == (if LengthOkStrict(in_length) then CrossStream(input1, input2, in_length) else [])
  {
    if (in_length < 2) || (in_length >= MAX_SMPLS_LEN) {
      return ERR_ARG_BOUNDS, [];
    }
    var bfr1 := new Cmplx[in_length];
    var bfr2 := new Cmplx[in_length];
    status, out := 0, [];
    var pos1: nat, pos2: nat := 0, 0;
    while true
      invariant pos1 <= |input1| && pos2 <= |input2|
      invariant out + CrossStream(input1[pos1..], input2[pos2..], in_length)
                == CrossStream(input1, input2, in_length)
      decreases |input1| - pos1
    {
      var ok1, next1 := Fread(input1, pos1, bfr1, 0, in_length);
      if !ok1 {
        break;
      }
      var ok2, next2 := Fread(input2, pos2, bfr2, 0, in_length);
      if !ok2 {
        break;
      }
      CrossStep(input1, input2, pos1, pos2, in_length, bfr1[..], bfr2[..]);
      CrossMultiplyBlock(bfr1, bfr2);
      out := out + [bfr1[..]];
      pos1, pos2 := next1, next2;
    }
  }

  /** Reading a full block from each stream moves the lockstep on by one block. */
  lemma CrossStep(s1: seq<Cmplx>, s2: seq<Cmplx>, p1: nat, p2: nat, n: nat, f1: seq<Cmplx>, f2: seq<Cmplx>)
    requires n > 0 && p1 + n <= |s1| && p2 + n <= |s2|
    requires f1 == s1[p1..p1 + n] && f2 == s2[p2..p2 + n]
    ensures CrossStream(s1[p1..], s2[p2..], n) == [CrossFrame(f1, f2)] + CrossStream(s1[p1 + n..], s2[p2 + n..], n)
  {
    assert s1[p1..][..n] == f1 && s1[p1..][n..] == s1[p1 + n..];
    assert s2[p2..][..n] == f2 && s2[p2..][n..] == s2[p2 + n..];
  }

  /** One block of sq_crossmultiply, written back into the first buffer. */
  method CrossMultiplyBlock(bfr1: array<Cmplx>, bfr2: array<Cmplx>)
    requires bfr1.Length == bfr2.Length && bfr1 != bfr2
    modifies bfr1
    ensures bfr1[..] == CrossFrame(old(bfr1[..]), bfr2[..])
  {
    ghost var f1 := bfr1[..];
    var smpli := 0;
    while smpli < bfr1.Length
      invariant 0 <= smpli <= bfr1.Length
      invariant forall i :: 0 <= i < smpli ==> bfr1[i] == CrossSample(f1[i], bfr2[i])
      invariant forall i :: smpli <= i < bfr1.Length ==> bfr1[i] == f1[i]
    {
      var a, b := bfr1[smpli], bfr2[smpli];
      var re := (a.re * b.re) - (a.im * b.im);
      var im := (a.re * b.im) + (b.im * a.re);
      assert Cmplx(re, im) == CrossSample(f1[smpli], bfr2[smpli]);
      // The product overwrites the first input buffer.
      bfr1[smpli] := Cmplx(re, im);
      smpli := smpli + 1;
    }
    assert bfr1[..] == CrossFrame(f1, bfr2[..]);
  }

  /** The j-th written block combines the j-th blocks of the two streams, and there are
      as many written blocks as the shorter stream holds. */
  lemma {:induction false} CrossStreamBlocks(s1: seq<Cmplx>, s2: seq<Cmplx>, n: nat)
    requires n > 0
    ensures |CrossStream(s1, s2, n)| == if |s1| / n <= |s2| / n then |s1| / n else |s2| / n
    ensures forall j :: 0 <= j < |CrossStream(s1, s2, n)| ==>
              j < |Frames(s1, n)| && j < |Frames(s2, n)| &&
              CrossStream(s1, s2, n)[j] == CrossFrame(Frames(s1, n)[j], Frames(s2, n)[j])
    decreases |s1|
  {
    FramesCount(s1, n);
    FramesCount(s2, n);
    if |s1| >= n && |s2| >= n {
      CrossStreamBlocks(s1[n..], s2[n..], n);
      DivStep(|s1|, n);
      DivStep(|s2|, n);
    }
  }

  /** The true complex product of two samples. */
  function ComplexProduct(a: Cmplx, b: Cmplx): Cmplx
  {
    Cmplx(a.re * b.re - a.im * b.im, a.re * b.im + a.im * b.re)
  }

  /** sq_crossmultiply agrees with the complex product exactly when re1*im2 == im1*re2. */
  lemma CrossSampleVersusProduct(a: Cmplx, b: Cmplx)
    ensures CrossSample(a, b).re == ComplexProduct(a, b).re
    ensures CrossSample(a, b) == ComplexProduct(a, b) <==> a.re * b.im == a.im * b.re
  {
  }

  /** (0, 1) times (1, 0) is (0, 1), but sq_crossmultiply writes (0, 0). */
  lemma CrossSampleCounterexample()
    ensures ComplexProduct(Cmplx(0.0, 1.0), Cmplx(1.0, 0.0)).im == 1.0
    ensures CrossSample(Cmplx(0.0, 1.0), Cmplx(1.0, 0.0)).im == 0.0
  {
  }

  /** The complex product is commutative; the formula as written is not. */
  lemma ProductCommutes(a: Cmplx, b: Cmplx)
    ensures ComplexProduct(a, b) == ComplexProduct(b, a)
  {
  }

  lemma CrossSampleNotCommutative()
    ensures CrossSample(Cmplx(1.0, 0.0), Cmplx(0.0, 1.0)).im == 2.0
  {
  }

  // ---------------------------------------------------------------- sq_component

  predicate ComponentOk(component: int)
  {
    component == REAL || component == IMAG
  }

  function ComponentFrame(f: seq<Cmplx>, component: int): (r: seq<real>)
    requires ComponentOk(component)
    ensures |r| == |f| && forall i :: 0 <= i < |f| ==> r[i] == Part(f[i], component)
  {
    seq(|f|, i requires 0 <= i < |f| => Part(f[i], component))
  }

  /** One block of sq_component: copies the chosen part of every sample. */
  method ComponentBlock(in_buffer: array<Cmplx>, out_buffer: array<real>, component: int)
    requires ComponentOk(component) && in_buffer.Length == out_buffer.Length
    modifies out_buffer
    ensures out_buffer[..] == ComponentFrame(in_buffer[..], component)
  {
    var i := 0;
    while i < in_buffer.Length
      invariant 0 <= i <= in_buffer.Length
      invariant forall k :: 0 <= k < i ==> out_buffer[k] == Part(in_buffer[k], component)
    {
      out_buffer[i] := if component == REAL then in_buffer[i].re else in_buffer[i].im;
      i := i + 1;
    }
    assert out_buffer[..] == ComponentFrame(in_buffer[..], component);
  }

  /** sq_component: writes one part (REAL or IMAG) of every sample as a single float. */
  method Component(input: seq<Cmplx>, in_length: nat, component: int)
    returns (status: int, out: seq<seq<real>>)
    ensures status == (if LengthOk(in_length) && ComponentOk(component) then 0 else ERR_ARG_BOUNDS)
    ensures out == (if LengthOk(in_length) && ComponentOk(component)
                    then MapFrames(f => ComponentFrame(f, component), Frames(input, in_length))
                    else [])
  {
    if !((in_length >= 2) && (in_length <= MAX_SMPLS_LEN)) {
      return ERR_ARG_BOUNDS, [];
    }
    if (component != 0) && (component != 1) {
      return ERR_ARG_BOUNDS, [];
    }
    ghost var F := (f: seq<Cmplx>) => ComponentFrame(f, component);
    var in_buffer := new Cmplx[in_length];
    var out_buffer := new real[in_length];
    status, out := 0, [];
    var pos: nat := 0;
    while true
      invariant pos <= |input|
      invariant out + MapFrames(F, Frames(input[pos..], in_length)) == MapFrames(F, Frames(input, in_length))
      decreases |input| - pos
    {
      var ok, next := Fread(input, pos, in_buffer, 0, in_length);
      MapAdvance(F, input, pos, in_length, ok, next, in_buffer[..], out);
      if !ok {
        break;
      }
      ComponentBlock(in_buffer, out_buffer, component);
      assert out_buffer[..] == F(in_buffer[..]);
      out := out + [out_buffer[..]];
      pos := next;
    }
  }

  /** sq_real */
  method RealPart(input: seq<Cmplx>, in_length: nat) returns (status: int, out: seq<seq<real>>)
    ensures status == (if LengthOk(in_length) then 0 else ERR_ARG_BOUNDS)
    ensures out == (if LengthOk(in_length)
                    then MapFrames(f => ComponentFrame(f, REAL), Frames(input, in_length)) else [])
  {
    status, out := Component(input, in_length, REAL);
  }

  /** sq_imag */
  method ImagPart(input: seq<Cmplx>, in_length: nat) returns (status: int, out: seq<seq<real>>)
    ensures status == (if LengthOk(in_length) then 0 else ERR_ARG_BOUNDS)
    ensures out == (if LengthOk(in_length)
                    then MapFrames(f => ComponentFrame(f, IMAG), Frames(input, in_length)) else [])
  {
    status, out := Component(input, in_length, IMAG);
  }

  /** The REAL and IMAG outputs of a block together give back the block. */
  lemma ComponentsReassemble(f: seq<Cmplx>)
    ensures forall i :: 0 <= i < |f| ==>
              Cmplx(ComponentFrame(f, REAL)[i], ComponentFrame(f, IMAG)[i]) == f[i]
  {
  }
}
