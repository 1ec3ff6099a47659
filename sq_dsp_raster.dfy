/** The raster-reshaping filters of src/sq_dsp.c: sq_sum, sq_bin, sq_pad, sq_fftflip and
    sq_overlap2x. Each reads fixed-size blocks and writes blocks of another shape. */
module SqDspRaster {
  import opened SqConstants
  import opened SqStreams
  import opened SqDspMaps

  // ---------------------------------------------------------------- sq_sum

  /** Sample-wise sum of two blocks of the same length. */
  function AddFrame(f: seq<Cmplx>, g: seq<Cmplx>): (r: seq<Cmplx>)
    requires |f| == |g|
    ensures |r| == |f| && forall i :: 0 <= i < |f| ==> r[i] == Add(f[i], g[i])
  {
    seq(|f|, i requires 0 <= i < |f| => Add(f[i], g[i]))
  }

  /** The sum of a group of rasters of length n, accumulated from a zero raster. */
  function SumRasters(rs: seq<seq<Cmplx>>, n: nat): (r: seq<Cmplx>)
    requires forall j :: 0 <= j < |rs| ==> |rs[j]| == n
    ensures |r| == n
  {
    if rs == [] then Zeros(n) else AddFrame(SumRasters(rs[..|rs| - 1], n), rs[|rs| - 1])
  }

  /** Groups after the first: only complete groups of num_to_sum rasters are written. */
  function SumRest(rs: seq<seq<Cmplx>>, n: nat, num_to_sum: nat): (r: seq<seq<Cmplx>>)
    requires num_to_sum > 0 && forall j :: 0 <= j < |rs| ==> |rs[j]| == n
    ensures r == [] <==> |rs| < num_to_sum
    ensures forall g :: 0 <= g < |r| ==> |r[g]| == n
    decreases |rs|
  {
    if |rs| < num_to_sum then []
    else [SumRasters(rs[..num_to_sum], n)] + SumRest(rs[num_to_sum..], n, num_to_sum)
  }

  /** What sq_sum writes for the rasters `rs`: the first group is written even when it is
      partial (or empty), the later ones only when complete. */
  function SumStream(rs: seq<seq<Cmplx>>, n: nat, num_to_sum: nat): (r: seq<seq<Cmplx>>)
    requires num_to_sum > 0 && forall j :: 0 <= j < |rs| ==> |rs[j]| == n
    ensures |r| >= 1 && forall g :: 0 <= g < |r| ==> |r[g]| == n
  {
    var m := Min(num_to_sum, |rs|);
    [SumRasters(rs[..m], n)] + SumRest(rs[m..], n, num_to_sum)
  }

  method ZeroBlock(buf: array<Cmplx>)
    modifies buf
    ensures buf[..] == Zeros(buf.Length)
  {
    var smpli := 0;
    while smpli < buf.Length
      invariant 0 <= smpli <= buf.Length
      invariant forall i :: 0 <= i < smpli ==> buf[i] == Zero
    {
      buf[smpli] := Zero;
      smpli := smpli + 1;
    }
  }

  /** sum_bfr[i] += in_buffer[i] for every sample. */
  method AccumulateBlock(sum_bfr: array<Cmplx>, in_buffer: array<Cmplx>)
    requires sum_bfr.Length == in_buffer.Length && sum_bfr != in_buffer
    modifies sum_bfr
    ensures sum_bfr[..] == AddFrame(old(sum_bfr[..]), in_buffer[..])
  {
    ghost var s0 := sum_bfr[..];
    var smpli := 0;
    while smpli < sum_bfr.Length
      invariant 0 <= smpli <= sum_bfr.Length
      invariant forall i :: 0 <= i < smpli ==> sum_bfr[i] == Add(s0[i], in_buffer[i])
      invariant forall i :: smpli <= i < sum_bfr.Length ==> sum_bfr[i] == s0[i]
    {
      sum_bfr[smpli] := Cmplx(sum_bfr[smpli].re + in_buffer[smpli].re, sum_bfr[smpli].im + in_buffer[smpli].im);
      smpli := smpli + 1;
    }
    assert sum_bfr[..] == AddFrame(s0, in_buffer[..]);
  }

  lemma SumRastersSnoc(rs: seq<seq<Cmplx>>, r: seq<Cmplx>, n: nat)
    requires forall j :: 0 <= j < |rs| ==> |rs[j]| == n
    requires |r| == n
    ensures SumRasters(rs + [r], n) == AddFrame(SumRasters(rs, n), r)
  {
    assert (rs + [r])[..|rs|] == rs;
  }

  /** A raster read inside a group joins the group's sum. */
  lemma GroupStep(rest: seq<seq<Cmplx>>, k: nat, r: seq<Cmplx>, tail: seq<seq<Cmplx>>, n: nat)
    requires forall j :: 0 <= j < |rest| ==> |rest[j]| == n
    requires k <= |rest| && rest[k..] == [r] + tail
    ensures k < |rest| && |r| == n && rest[k + 1..] == tail
    ensures SumRasters(rest[..k + 1], n) == AddFrame(SumRasters(rest[..k], n), r)
  {
    assert rest[k..][0] == r;
    assert rest[k + 1..] == rest[k..][1..];
    assert rest[..k + 1] == rest[..k] + [r];
    SumRastersSnoc(rest[..k], r, n);
  }

  /** One read of sq_sum's inner loop: a complete raster is added into sum_bfr, which
      then holds the sum of one more raster of the group. */
  method ReadInto(input: seq<Cmplx>, pos: nat, in_buffer: array<Cmplx>, sum_bfr: array<Cmplx>,
                  ghost rest: seq<seq<Cmplx>>, raster_count: nat)
    returns (ok: bool, next: nat)
    requires pos <= |input| && 0 < in_buffer.Length == sum_bfr.Length && in_buffer != sum_bfr
    requires forall j :: 0 <= j < |rest| ==> |rest[j]| == in_buffer.Length
    requires raster_count <= |rest| && Frames(input[pos..], in_buffer.Length) == rest[raster_count..]
    requires sum_bfr[..] == SumRasters(rest[..raster_count], in_buffer.Length)
    modifies in_buffer, sum_bfr
    ensures pos <= next <= |input|
    ensures ok ==> raster_count < |rest| && pos < next
    ensures ok ==> Frames(input[next..], in_buffer.Length) == rest[raster_count + 1..]
    ensures ok ==> sum_bfr[..] == SumRasters(rest[..raster_count + 1], in_buffer.Length)
    ensures !ok ==> raster_count == |rest| && Frames(input[next..], in_buffer.Length) == []
    ensures !ok ==> sum_bfr[..] == SumRasters(rest[..raster_count], in_buffer.Length)
  {
    var in_length := in_buffer.Length;
    ok, next := Fread(input, pos, in_buffer, 0, in_length);
    ReadStep(input, pos, in_length, ok, next, in_buffer[..]);
    if ok {
      GroupStep(rest, raster_count, in_buffer[..], Frames(input[next..], in_length), in_length);
      // Add the raster just read to the group's running total.
      AccumulateBlock(sum_bfr, in_buffer);
    } else {
      assert input[next..] == [];
    }
  }

  /** One pass of sq_sum's inner loop: num_to_sum reads into in_buffer, each complete raster
      added into the zeroed sum_bfr; a short read schedules the shutdown. */
  method ReadGroup(input: seq<Cmplx>, pos0: nat, in_buffer: array<Cmplx>, sum_bfr: array<Cmplx>,
                   in_length: nat, num_to_sum: nat)
    returns (pos: nat, raster_count: nat, schedule_shutdown: bool)
    requires pos0 <= |input| && in_length > 0
    requires in_buffer.Length == in_length && sum_bfr.Length == in_length && in_buffer != sum_bfr
    modifies in_buffer, sum_bfr
    ensures pos0 <= pos <= |input|
    ensures raster_count == Min(num_to_sum, |Frames(input[pos0..], in_length)|)
    ensures schedule_shutdown <==> |Frames(input[pos0..], in_length)| < num_to_sum
    ensures Frames(input[pos..], in_length) == Frames(input[pos0..], in_length)[raster_count..]
    ensures sum_bfr[..] == SumRasters(Frames(input[pos0..], in_length)[..raster_count], in_length)
    ensures !schedule_shutdown ==> pos >= pos0 + raster_count
  {
    ghost var rest := Frames(input[pos0..], in_length);
    pos, raster_count, schedule_shutdown := pos0, 0, false;
    // Each group starts from an all-zero total.
    ZeroBlock(sum_bfr);
    var rasteri := 0;
    while rasteri < num_to_sum
      invariant pos0 <= pos <= |input|
      invariant raster_count <= rasteri <= num_to_sum && raster_count <= |rest|
      invariant Frames(input[pos..], in_length) == rest[raster_count..]
      invariant sum_bfr[..] == SumRasters(rest[..raster_count], in_length)
      invariant schedule_shutdown ==> raster_count == |rest| && raster_count < rasteri
      invariant !schedule_shutdown ==> raster_count == rasteri && pos >= pos0 + raster_count
    {
      var ok, next := ReadInto(input, pos, in_buffer, sum_bfr, rest, raster_count);
      if ok {
        raster_count := raster_count + 1;
      } else {
        // The stream ran dry inside this group: this is the last group.
        schedule_shutdown := true;
      }
      pos := next;
      rasteri := rasteri + 1;
    }
  }

  /** One group of sq_sum moves its loop invariant on: the raster sent (always for the
      first group, otherwise only for a complete one) is the next one of the stream. */
  lemma SumAdvance(input: seq<Cmplx>, pos: nat, next: nat, n: nat, num_to_sum: nat, m: nat,
                   schedule_shutdown: bool, first_time: bool, out: seq<seq<Cmplx>>, sum: seq<Cmplx>,
                   all: seq<seq<Cmplx>>)
    requires n > 0 && num_to_sum > 0 && pos <= next <= |input|
    requires all == SumStream(Frames(input, n), n, num_to_sum)
    requires m == Min(num_to_sum, |Frames(input[pos..], n)|)
    requires schedule_shutdown <==> |Frames(input[pos..], n)| < num_to_sum
    requires Frames(input[next..], n) == Frames(input[pos..], n)[m..]
    requires sum == SumRasters(Frames(input[pos..], n)[..m], n)
    requires first_time ==> out == [] && pos == 0
    requires !first_time ==> out + SumRest(Frames(input[pos..], n), n, num_to_sum) == all
    ensures var out' := if first_time || m == num_to_sum then out + [sum] else out;
            (schedule_shutdown ==> out' == all)
            && (!schedule_shutdown ==> out' + SumRest(Frames(input[next..], n), n, num_to_sum) == all)
  {
    var rest := Frames(input[pos..], n);
    if first_time {
      assert input[pos..] == input;
      if schedule_shutdown {
        assert rest[m..] == [];
      }
    } else if !schedule_shutdown {
      assert SumRest(rest, n, num_to_sum) == [SumRasters(rest[..m], n)] + SumRest(rest[m..], n, num_to_sum);
    }
  }

  /** sq_sum: element-wise sums of groups of num_to_sum consecutive rasters. A zero
      num_to_sum makes the source loop forever; it is excluded. */
  method SumGroups(input: seq<Cmplx>, in_length: nat, num_to_sum: nat)
    returns (status: int, out: seq<seq<Cmplx>>)
    requires num_to_sum >= 1
    ensures status == (if LengthOk(in_length) then 0 else ERR_ARG_BOUNDS)
    ensures out == (if LengthOk(in_length) then SumStream(Frames(input, in_length), in_length, num_to_sum) else [])
  {
    if !((in_length >= 2) && (in_length <= MAX_SMPLS_LEN)) {
      return ERR_ARG_BOUNDS, [];
    }
    var in_buffer := new Cmplx[in_length];
    var sum_bfr := new Cmplx[in_length];
    var first_time := true;
    ghost var all := SumStream(Frames(input, in_length), in_length, num_to_sum);
    status, out := 0, [];
    var pos: nat := 0;
    assert input[pos..] == input;
    while true
      invariant pos <= |input|
      invariant first_time ==> out == [] && pos == 0
      invariant !first_time ==> out + SumRest(Frames(input[pos..], in_length), in_length, num_to_sum) == all
      decreases |input| - pos
    {
      ghost var rest := Frames(input[pos..], in_length);
      var next, raster_count, schedule_shutdown := ReadGroup(input, pos, in_buffer, sum_bfr, in_length, num_to_sum);
      SumAdvance(input, pos, next, in_length, num_to_sum, raster_count, schedule_shutdown, first_time,
                 out, sum_bfr[..], all);
      // The first group is written even when partial; each later group only when full.
      if first_time || raster_count == num_to_sum {
        out := out + [sum_bfr[..]];
      }
      first_time := false;
      // A short read ends the run after this group.
      if schedule_shutdown {
        break;
      }
      pos := next;
    }
  }

  /** R complete rasters give max(1, R / num_to_sum) output rasters. */
  lemma {:induction false} SumRestCount(rs: seq<seq<Cmplx>>, n: nat, num_to_sum: nat)
    requires num_to_sum > 0 && forall j :: 0 <= j < |rs| ==> |rs[j]| == n
    ensures |SumRest(rs, n, num_to_sum)| == |rs| / num_to_sum
    decreases |rs|
  {
    if |rs| >= num_to_sum {
      SumRestCount(rs[num_to_sum..], n, num_to_sum);
      DivStep(|rs|, num_to_sum);
    }
  }

  lemma SumStreamCount(rs: seq<seq<Cmplx>>, n: nat, num_to_sum: nat)
    requires num_to_sum > 0 && forall j :: 0 <= j < |rs| ==> |rs[j]| == n
    ensures |SumStream(rs, n, num_to_sum)| == if |rs| / num_to_sum >= 1 then |rs| / num_to_sum else 1
  {
    var m := Min(num_to_sum, |rs|);
    SumRestCount(rs[m..], n, num_to_sum);
    if |rs| >= num_to_sum {
      DivStep(|rs|, num_to_sum);
    }
  }

  /** Later groups: group j of SumRest is the sum of rasters [j*N, (j+1)*N). */
  lemma SumRestAt(rs: seq<seq<Cmplx>>, n: nat, num_to_sum: nat, j: nat)
    requires num_to_sum > 0 && forall k :: 0 <= k < |rs| ==> |rs[k]| == n
    requires j < |SumRest(rs, n, num_to_sum)|
    ensures (j + 1) * num_to_sum <= |rs|
    ensures SumRest(rs, n, num_to_sum)[j] == SumRasters(rs[j * num_to_sum..(j + 1) * num_to_sum], n)
  {
    TimesIsProduct(j, num_to_sum);
    SumRestAtOffset(rs, n, num_to_sum, j, j * num_to_sum);
    MulSucc(j, num_to_sum);
  }

  lemma {:induction false} SumRestAtOffset(rs: seq<seq<Cmplx>>, n: nat, num_to_sum: nat, j: nat, a: nat)
    requires num_to_sum > 0 && forall k :: 0 <= k < |rs| ==> |rs[k]| == n
    requires j < |SumRest(rs, n, num_to_sum)| && a == Times(j, num_to_sum)
    ensures a + num_to_sum <= |rs|
    ensures SumRest(rs, n, num_to_sum)[j] == SumRasters(rs[a..a + num_to_sum], n)
    decreases j
  {
    assert |rs| >= num_to_sum;
    var t := rs[num_to_sum..];
    assert SumRest(rs, n, num_to_sum) == [SumRasters(rs[..num_to_sum], n)] + SumRest(t, n, num_to_sum);
    if j == 0 {
      assert rs[a..a + num_to_sum] == rs[..num_to_sum];
    } else {
      assert SumRest(rs, n, num_to_sum)[j] == SumRest(t, n, num_to_sum)[j - 1];
      SumRestAtOffset(t, n, num_to_sum, j - 1, a - num_to_sum);
      assert t[a - num_to_sum..a] == rs[a..a + num_to_sum];
    }
  }

  /** Every written raster sums one group of consecutive rasters: the first group is
      rasters [0, min(N, R)), and group j >= 1 is the complete group [j*N, (j+1)*N). */
  lemma SumStreamGroups(rs: seq<seq<Cmplx>>, n: nat, num_to_sum: nat, j: nat)
    requires num_to_sum > 0 && forall k :: 0 <= k < |rs| ==> |rs[k]| == n
    requires j < |SumStream(rs, n, num_to_sum)|
    ensures j == 0 ==> SumStream(rs, n, num_to_sum)[j] == SumRasters(rs[..Min(num_to_sum, |rs|)], n)
    ensures j > 0 ==> (j + 1) * num_to_sum <= |rs|
    ensures j > 0 ==> SumStream(rs, n, num_to_sum)[j] == SumRasters(rs[j * num_to_sum..(j + 1) * num_to_sum], n)
  {
    if j > 0 {
      var m := Min(num_to_sum, |rs|);
      var t := rs[m..];
      assert SumStream(rs, n, num_to_sum)[j] == SumRest(t, n, num_to_sum)[j - 1];
      assert m == num_to_sum;
      SumRestAt(t, n, num_to_sum, j - 1);
      SumRestShift(rs, n, num_to_sum, j);
    }
  }

  lemma SumRestShift(rs: seq<seq<Cmplx>>, n: nat, num_to_sum: nat, j: nat)
    requires num_to_sum > 0 && j > 0 && num_to_sum <= |rs|
    requires j * num_to_sum <= |rs[num_to_sum..]|
    ensures (j + 1) * num_to_sum <= |rs|
    ensures rs[num_to_sum..][(j - 1) * num_to_sum..j * num_to_sum] == rs[j * num_to_sum..(j + 1) * num_to_sum]
  {
    assert (j - 1) * num_to_sum + num_to_sum == j * num_to_sum;
    assert j * num_to_sum + num_to_sum == (j + 1) * num_to_sum;
  }

  /** An empty stream still yields one all-zero raster. */
  lemma SumOfNothing(n: nat, num_to_sum: nat)
    requires num_to_sum > 0
    ensures SumStream([], n, num_to_sum) == [Zeros(n)]
  {
  }

  /** With num_to_sum = 1 the rasters pass through unchanged (when there is one). */
  lemma {:induction false} SumOneIsIdentity(rs: seq<seq<Cmplx>>, n: nat)
    requires |rs| >= 1 && forall k :: 0 <= k < |rs| ==> |rs[k]| == n
    ensures SumStream(rs, n, 1) == rs
  {
    SumOneRest(rs[1..], n);
    SumOneRaster(rs[0], n);
    assert rs[..1] == [rs[0]];
    assert rs == [rs[0]] + rs[1..];
  }

  lemma {:induction false} SumOneRest(rs: seq<seq<Cmplx>>, n: nat)
    requires forall k :: 0 <= k < |rs| ==> |rs[k]| == n
    ensures SumRest(rs, n, 1) == rs
    decreases |rs|
  {
    if rs != [] {
      SumOneRest(rs[1..], n);
      SumOneRaster(rs[0], n);
      assert rs[..1] == [rs[0]];
      assert rs == [rs[0]] + rs[1..];
    }
  }

  lemma SumOneRaster(r: seq<Cmplx>, n: nat)
    requires |r| == n
    ensures SumRasters([r], n) == r
  {
    assert [r][..0] == [];
    assert forall i :: 0 <= i < n ==> SumRasters([r], n)[i] == Add(Zero, r[i]);
  }

  // ---------------------------------------------------------------- sq_bin and sq_pad guards

  /** The first guard of sq_bin and sq_pad as written: it rejects only when in_length is
      out of range AND out_length is in range. */
  predicate MisparenthesisedReject(in_length: nat, out_length: nat)
  {
    !((in_length >= 2) && (in_length <= MAX_SMPLS_LEN))
      && ((out_length >= 2) && (out_length <= MAX_SMPLS_LEN))
  }

  /** Argument status of sq_bin as written. */
  function BinArgStatus(in_length: nat, out_length: nat): (status: int)
    ensures status == 0 <==> !MisparenthesisedReject(in_length, out_length) && out_length < in_length
    ensures status != 0 ==> status == ERR_ARG_BOUNDS
  {
    if MisparenthesisedReject(in_length, out_length) then ERR_ARG_BOUNDS
    else if out_length >= in_length then ERR_ARG_BOUNDS
    else 0
  }

  /** Argument status of sq_pad as written. */
  function PadArgStatus(in_length: nat, out_length: nat): (status: int)
    ensures status == 0 <==> !MisparenthesisedReject(in_length, out_length) && out_length > in_length
    ensures status != 0 ==> status == ERR_ARG_BOUNDS
  {
    if MisparenthesisedReject(in_length, out_length) then ERR_ARG_BOUNDS
    else if out_length <= in_length then ERR_ARG_BOUNDS
    else 0
  }

  /** The guard the error message describes: both lengths in [2, MAX_SMPLS_LEN]. */
  predicate BothLengthsOk(in_length: nat, out_length: nat)
  {
    LengthOk(in_length) && LengthOk(out_length)
  }

  /** sq_bin with the guard as intended. */
  function BinArgStatusIntended(in_length: nat, out_length: nat): (status: int)
    ensures status == 0 ==> 2 <= out_length < in_length <= MAX_SMPLS_LEN
    ensures status == 0 ==> BinArgStatus(in_length, out_length) == 0
    ensures status == 0 <==> BothLengthsOk(in_length, out_length) && out_length < in_length
  {
    if !BothLengthsOk(in_length, out_length) then ERR_ARG_BOUNDS
    else if out_length >= in_length then ERR_ARG_BOUNDS
    else 0
  }

  /** sq_pad with the guard as intended. */
  function PadArgStatusIntended(in_length: nat, out_length: nat): (status: int)
    ensures status == 0 ==> 2 <= in_length < out_length <= MAX_SMPLS_LEN
    ensures status == 0 ==> PadArgStatus(in_length, out_length) == 0
    ensures status == 0 <==> BothLengthsOk(in_length, out_length) && in_length < out_length
  {
    if !BothLengthsOk(in_length, out_length) then ERR_ARG_BOUNDS
    else if out_length <= in_length then ERR_ARG_BOUNDS
    else 0
  }

  /** As written, sq_bin lets out_length = 0 through, and then divides by it. */
  lemma BinGuardAdmitsZeroOutput()
    ensures BinArgStatus(5, 0) == 0
    ensures BinArgStatusIntended(5, 0) == ERR_ARG_BOUNDS
  {
  }

  /** As written, sq_pad lets in_length = 0 through; a read of zero samples always
      succeeds, so the source writes padded frames forever. */
  lemma PadGuardAdmitsEmptyInput()
    ensures PadArgStatus(0, 1) == 0
    ensures PadArgStatusIntended(0, 1) == ERR_ARG_BOUNDS
  {
  }

  /** Every out-of-range length the guard as written lets through. */
  lemma MisparenthesisedGuardAccepts(in_length: nat, out_length: nat)
    ensures !MisparenthesisedReject(in_length, out_length) <==>
              LengthOk(in_length) || !LengthOk(out_length)
  {
  }

  // ---------------------------------------------------------------- sq_bin

  /** in/bs * bs <= in: the out_length bins of bin_size samples fit in the input block. */
  lemma DivMulLe(a: nat, b: nat)
    requires b > 0
    ensures (a / b) * b <= a && b * (a / b) <= a
  {
  }

  /** The samples per bin, in_length / out_length: at least one, and the out_length bins
      fit in the block. */
  function BinSize(in_length: nat, out_length: nat): (bin_size: nat)
    requires 0 < out_length < in_length
    ensures 0 < bin_size && out_length * bin_size <= in_length
  {
    DivMulLe(in_length, out_length);
    DivPositive(in_length, out_length);
    in_length / out_length
  }

  lemma DivPositive(a: nat, b: nat)
    requires 0 < b <= a
    ensures a / b >= 1
  {
  }

  /** The terms of xs, each divided by d, added one at a time from the left (sq_bin's
      per-trip division). Non-negative terms and a positive divisor give a non-negative
      total; all-zero terms give zero. */
  function ScaledSum(xs: seq<real>, d: real): (r: real)
    requires d != 0.0
    ensures (d > 0.0 && forall i :: 0 <= i < |xs| ==> xs[i] >= 0.0) ==> r >= 0.0
    ensures (forall i :: 0 <= i < |xs| ==> xs[i] == 0.0) ==> r == 0.0
    decreases |xs|
  {
    if xs == [] then 0.0 else ScaledSum(xs[..|xs| - 1], d) + xs[|xs| - 1] / d
  }

  /** One bin: both parts of the block summed after division by the bin size. A block
      of power samples (real, non-negative) gives a power sample. */
  function BinSample(block: seq<Cmplx>, bin_size: nat): (r: Cmplx)
    requires bin_size > 0
    ensures (forall i :: 0 <= i < |block| ==> block[i].im == 0.0 && block[i].re >= 0.0)
            ==> r.im == 0.0 && r.re >= 0.0
  {
    Cmplx(ScaledSum(Reals(block), bin_size as real), ScaledSum(Imags(block), bin_size as real))
  }

  /** The first out_length bins of a block. */
  function BinFrame(f: seq<Cmplx>, out_length: nat, bin_size: nat): (r: seq<Cmplx>)
    requires bin_size > 0
    ensures |r| == Min(out_length, |Frames(f, bin_size)|)
    ensures forall k :: 0 <= k < |r| ==> r[k] == BinSample(Frames(f, bin_size)[k], bin_size)
  {
    var blocks := Frames(f, bin_size);
    seq(Min(out_length, |blocks|), k requires 0 <= k < Min(out_length, |blocks|) => BinSample(blocks[k], bin_size))
  }

  /** The inner loop of sq_bin for one output sample. */
  method BinAccumulate(input_bfr: array<Cmplx>, output_bfr: array<Cmplx>, out_i: nat,
                       start: nat, stop: nat, bin_size: nat)
    requires bin_size > 0 && start <= stop <= input_bfr.Length && out_i < output_bfr.Length
    requires input_bfr != output_bfr && output_bfr[out_i] == Zero
    modifies output_bfr
    ensures output_bfr[out_i] == BinSample(input_bfr[start..stop], bin_size)
    ensures forall j :: 0 <= j < output_bfr.Length && j != out_i ==> output_bfr[j] == old(output_bfr[j])
  {
    var d := bin_size as real;
    ghost var blk := input_bfr[start..stop];
    ghost var orig := output_bfr[..];
    var in_i := start;
    while in_i < stop
      invariant start <= in_i <= stop
      invariant output_bfr[out_i] == BinSample(blk[..in_i - start], bin_size)
      invariant forall j :: 0 <= j < output_bfr.Length && j != out_i ==> output_bfr[j] == orig[j]
    {
      BinSampleStep(blk, in_i - start, bin_size);
      var c := output_bfr[out_i];
      output_bfr[out_i] := Cmplx(c.re + input_bfr[in_i].re / d, c.im + input_bfr[in_i].im / d);
      in_i := in_i + 1;
    }
    assert blk[..stop - start] == blk;
  }

  /** Adding sample i to a bin adds a bin_size-th of each of its parts. */
  lemma BinSampleStep(xs: seq<Cmplx>, i: nat, bin_size: nat)
    requires bin_size > 0 && i < |xs|
    ensures BinSample(xs[..i + 1], bin_size)
            == Cmplx(BinSample(xs[..i], bin_size).re + xs[i].re / (bin_size as real),
                     BinSample(xs[..i], bin_size).im + xs[i].im / (bin_size as real))
  {
    assert xs[..i + 1][..i] == xs[..i];
    assert Reals(xs[..i + 1])[..i] == Reals(xs[..i]);
    assert Imags(xs[..i + 1])[..i] == Imags(xs[..i]);
  }

  /** One block of sq_bin: the output buffer is cleared, then every bin is accumulated. */
  method BinBlock(input_bfr: array<Cmplx>, output_bfr: array<Cmplx>, bin_size: nat)
    requires bin_size > 0 && input_bfr != output_bfr
    requires output_bfr.Length * bin_size <= input_bfr.Length
    modifies output_bfr
    ensures output_bfr[..] == BinFrame(input_bfr[..], output_bfr.Length, bin_size)
  {
    // Every raster's bins start from zero.
    ZeroBlock(output_bfr);
    ghost var frame := input_bfr[..];
    ghost var blocks := Frames(frame, bin_size);
    var out_length := output_bfr.Length;
    var out_i := 0;
    while out_i < out_length
      invariant 0 <= out_i <= out_length
      invariant forall k :: 0 <= k < out_i ==> k < |blocks| && output_bfr[k] == BinSample(blocks[k], bin_size)
      invariant forall k :: out_i <= k < out_length ==> output_bfr[k] == Zero
    {
      BinBounds(frame, bin_size, out_length, out_i);
      var start := out_i * bin_size;
      var stop := (out_i + 1) * bin_size;
      BinAccumulate(input_bfr, output_bfr, out_i, start, stop, bin_size);
      out_i := out_i + 1;
    }
    if out_length > 0 {
      BinBounds(frame, bin_size, out_length, out_length - 1);
    }
    assert output_bfr[..] == BinFrame(frame, out_length, bin_size);
  }

  /** Bin k of a block holding out_length bins lies inside the block and is its k-th
      sub-block of bin_size samples. */
  lemma BinBounds(f: seq<Cmplx>, bin_size: nat, out_length: nat, k: nat)
    requires bin_size > 0 && out_length * bin_size <= |f| && k < out_length
    ensures k * bin_size <= (k + 1) * bin_size <= |f|
    ensures k < |Frames(f, bin_size)| && Frames(f, bin_size)[k] == f[k * bin_size..(k + 1) * bin_size]
  {
    MulLe(k, k + 1, bin_size);
    MulLe(k + 1, out_length, bin_size);
    FramesCountAtLeast(f, bin_size, k);
    FramesAt(f, bin_size, k);
  }

  /** A block of (j+1)*n items has more than j complete blocks of n. */
  lemma FramesCountAtLeast<T>(s: seq<T>, n: nat, j: int)
    requires n > 0 && (j + 1) * n <= |s|
    ensures j < |Frames(s, n)|
  {
    FramesCount(s, n);
    if j >= 0 && |s| / n <= j {
      DivMulLe(|s|, n);
      MulLe(|s| / n + 1, j + 1, n);
    }
  }

  /** sq_bin: averages bins of in_length/out_length samples. Source runs with
      out_length = 0 divide by zero; they are excluded. */
  method Bin(input: seq<Cmplx>, in_length: nat, out_length: nat) returns (status: int, out: seq<seq<Cmplx>>)
    requires out_length == 0 ==> BinArgStatus(in_length, out_length) != 0
    ensures status == BinArgStatus(in_length, out_length)
    ensures out == (if status == 0
                    then MapFrames(f => BinFrame(f, out_length, BinSize(in_length, out_length)), Frames(input, in_length))
                    else [])
  {
    if !((in_length >= 2) && (in_length <= MAX_SMPLS_LEN))
        && ((out_length >= 2) && (out_length <= MAX_SMPLS_LEN)) {
      return ERR_ARG_BOUNDS, [];
    }
    if out_length >= in_length {
      return ERR_ARG_BOUNDS, [];
    }
    var input_bfr := new Cmplx[in_length];
    var output_bfr := new Cmplx[out_length];
    var bin_size := BinSize(in_length, out_length);
    ghost var F := (f: seq<Cmplx>) => BinFrame(f, out_length, bin_size);
    status, out := 0, [];
    var pos: nat := 0;
    while true
      invariant pos <= |input|
      invariant out + MapFrames(F, Frames(input[pos..], in_length)) == MapFrames(F, Frames(input, in_length))
      decreases |input| - pos
    {
      var ok, next := Fread(input, pos, input_bfr, 0, in_length);
      MapAdvance(F, input, pos, in_length, ok, next, input_bfr[..], out);
      if !ok {
        break;
      }
      BinBlock(input_bfr, output_bfr, bin_size);
      out := out + [output_bfr[..]];
      pos := next;
    }
  }

  /** Accumulating x/d term by term gives the sum divided by d. */
  lemma {:induction false} ScaledSumIsMean(xs: seq<real>, d: real)
    requires d != 0.0
    ensures ScaledSum(xs, d) == Sum(xs) / d
    decreases |xs|
  {
    if xs != [] {
      ScaledSumIsMean(xs[..|xs| - 1], d);
    }
  }

  /** Output sample k of sq_bin is the mean of input samples [k*bs, (k+1)*bs). */
  lemma BinIsBlockMean(f: seq<Cmplx>, out_length: nat, bin_size: nat, k: nat)
    requires bin_size > 0 && out_length * bin_size <= |f| && k < out_length
    ensures (k + 1) * bin_size <= |f| && k < |BinFrame(f, out_length, bin_size)|
    ensures BinFrame(f, out_length, bin_size)[k]
            == Cmplx(Sum(Reals(f[k * bin_size..(k + 1) * bin_size])) / (bin_size as real),
                     Sum(Imags(f[k * bin_size..(k + 1) * bin_size])) / (bin_size as real))
  {
    BinBounds(f, bin_size, out_length, k);
    var blk := f[k * bin_size..(k + 1) * bin_size];
    ScaledSumIsMean(Reals(blk), bin_size as real);
    ScaledSumIsMean(Imags(blk), bin_size as real);
  }

  /** Samples at index out_length*bs and beyond do not affect the output of sq_bin. */
  lemma BinIgnoresTail(f: seq<Cmplx>, g: seq<Cmplx>, out_length: nat, bin_size: nat)
    requires bin_size > 0 && out_length * bin_size <= |f| && out_length * bin_size <= |g|
    requires f[..out_length * bin_size] == g[..out_length * bin_size]
    ensures BinFrame(f, out_length, bin_size) == BinFrame(g, out_length, bin_size)
  {
    var m := out_length * bin_size;
    if out_length > 0 {
      FramesCountAtLeast(f, bin_size, out_length - 1);
      FramesCountAtLeast(g, bin_size, out_length - 1);
    }
    forall k | 0 <= k < out_length
      ensures Frames(f, bin_size)[k] == Frames(g, bin_size)[k]
    {
      BinTailAt(f, g, out_length, bin_size, k);
    }
  }

  lemma BinTailAt(f: seq<Cmplx>, g: seq<Cmplx>, out_length: nat, bin_size: nat, k: nat)
    requires bin_size > 0 && out_length * bin_size <= |f| && out_length * bin_size <= |g|
    requires f[..out_length * bin_size] == g[..out_length * bin_size]
    requires k < out_length
    ensures k < |Frames(f, bin_size)| && k < |Frames(g, bin_size)|
    ensures Frames(f, bin_size)[k] == Frames(g, bin_size)[k]
  {
    var m := out_length * bin_size;
    var lo := k * bin_size;
    MulSucc(k, bin_size);
    MulLe(k + 1, out_length, bin_size);
    FramesCountAtLeast(f, bin_size, k);
    FramesCountAtLeast(g, bin_size, k);
    FramesAtOffset(f, bin_size, k, lo);
    FramesAtOffset(g, bin_size, k, lo);
    assert f[lo..lo + bin_size] == f[..m][lo..lo + bin_size];
    assert g[lo..lo + bin_size] == g[..m][lo..lo + bin_size];
  }

  // ---------------------------------------------------------------- sq_pad

  /** Where sq_pad places the input block: (out_length - in_length) / 2. */
  function PadOffset(in_length: nat, out_length: nat): (offset: nat)
    ensures in_length <= out_length ==> offset + in_length + offset <= out_length <= offset + in_length + offset + 1
    ensures out_length < in_length ==> offset == 0
  {
    if out_length >= in_length then (out_length - in_length) / 2 else 0
  }

  /** A block centred in a frame of out_length samples, zero on both sides (a block that
      does not fit is left as it is). */
  function PadFrame(f: seq<Cmplx>, out_length: nat): (r: seq<Cmplx>)
    ensures |f| <= out_length ==> |r| == out_length
  {
    if out_length < |f| then f
    else
      var off := PadOffset(|f|, out_length);
      Zeros(off) + f + Zeros(out_length - off - |f|)
  }

  /** Stripping the padding gives back the block, and everything around it is zero. */
  lemma PadFrameParts(f: seq<Cmplx>, out_length: nat)
    requires |f| <= out_length
    ensures PadFrame(f, out_length)[PadOffset(|f|, out_length)..PadOffset(|f|, out_length) + |f|] == f
    ensures forall i :: 0 <= i < PadOffset(|f|, out_length) ==> PadFrame(f, out_length)[i] == Zero
    ensures forall i :: PadOffset(|f|, out_length) + |f| <= i < out_length ==> PadFrame(f, out_length)[i] == Zero
    ensures out_length - |f| - 1 <= 2 * PadOffset(|f|, out_length) <= out_length - |f|
  {
    var off := PadOffset(|f|, out_length);
    var r := PadFrame(f, out_length);
    assert r == Zeros(off) + f + Zeros(out_length - off - |f|);
    forall i | 0 <= i < |f|
      ensures r[off + i] == f[i]
    {
    }
  }

  /** Reading a block into the centre of a buffer that is zero around the centre gives the
      padded block, and leaves the buffer zero around the centre. */
  lemma PadStep(b0: seq<Cmplx>, b1: seq<Cmplx>, f: seq<Cmplx>, offset: nat, out_length: nat)
    requires |b0| == out_length == |b1| && |f| < out_length && offset == PadOffset(|f|, out_length)
    requires b0[..offset] == Zeros(offset) && b0[offset + |f|..] == Zeros(out_length - offset - |f|)
    requires b1[..offset] == b0[..offset] && b1[offset..offset + |f|] == f
    requires b1[offset + |f|..] == b0[offset + |f|..]
    ensures b1 == PadFrame(f, out_length)
    ensures b1[..offset] == Zeros(offset) && b1[offset + |f|..] == Zeros(out_length - offset - |f|)
  {
    assert b1 == b1[..offset] + b1[offset..offset + |f|] + b1[offset + |f|..];
  }

  /** One read of sq_pad, placed at the offset inside the zeroed frame: after a full
      read the buffer is the padded block, and the zero borders are kept either way. */
  method PadRound(input: seq<Cmplx>, pos: nat, output_bfr: array<Cmplx>, offset: nat, in_length: nat)
    returns (ok: bool, next: nat)
    requires pos <= |input| && in_length < output_bfr.Length && offset == PadOffset(in_length, output_bfr.Length)
    requires output_bfr[..offset] == Zeros(offset)
    requires output_bfr[offset + in_length..] == Zeros(output_bfr.Length - offset - in_length)
    modifies output_bfr
    ensures ok == (pos + in_length <= |input|) && next == (if ok then pos + in_length else |input|)
    ensures ok ==> output_bfr[..] == PadFrame(input[pos..next], output_bfr.Length)
    ensures output_bfr[..offset] == Zeros(offset)
    ensures output_bfr[offset + in_length..] == Zeros(output_bfr.Length - offset - in_length)
  {
    ghost var b0 := output_bfr[..];
    ok, next := Fread(input, pos, output_bfr, offset, in_length);
    if ok {
      PadStep(b0, output_bfr[..], input[pos..next], offset, output_bfr.Length);
    } else {
      assert output_bfr[offset + in_length..] == output_bfr[offset + (next - pos)..][in_length - (next - pos)..];
    }
  }

  /** sq_pad: writes every block centred in a zero frame of out_length samples. Source
      runs with in_length = 0 never end; they are excluded. */
  method Pad(input: seq<Cmplx>, in_length: nat, out_length: nat) returns (status: int, out: seq<seq<Cmplx>>)
    requires in_length == 0 ==> PadArgStatus(in_length, out_length) != 0
    ensures status == PadArgStatus(in_length, out_length)
    ensures out == (if status == 0 then MapFrames(f => PadFrame(f, out_length), Frames(input, in_length)) else [])
  {
    if !((in_length >= 2) && (in_length <= MAX_SMPLS_LEN))
        && ((out_length >= 2) && (out_length <= MAX_SMPLS_LEN)) {
      return ERR_ARG_BOUNDS, [];
    }
    if out_length <= in_length {
      return ERR_ARG_BOUNDS, [];
    }
    var output_bfr := new Cmplx[out_length](_ => Zero);
    // Where the input raster sits inside the padded one.
    var offset := (out_length - in_length) / 2;
    ghost var F := (f: seq<Cmplx>) => PadFrame(f, out_length);
    ghost var after := out_length - offset - in_length;
    status, out := 0, [];
    var pos: nat := 0;
    while true
      invariant pos <= |input|
      invariant output_bfr[..offset] == Zeros(offset)
      invariant output_bfr[offset + in_length..] == Zeros(after)
      invariant out + MapFrames(F, Frames(input[pos..], in_length)) == MapFrames(F, Frames(input, in_length))
      decreases |input| - pos
    {
      var ok, next := PadRound(input, pos, output_bfr, offset, in_length);
      MapAdvance(F, input, pos, in_length, ok, next, input[pos..next], out);
      if !ok {
        break;
      }
      out := out + [output_bfr[..]];
      pos := next;
    }
  }

  // ---------------------------------------------------------------- sq_fftflip

  /** The float-level effect of sq_fftflip's loop on a block of n complex samples held as
      2n floats: float p < 2*(n/2) is exchanged with float p + n. */
  function FlipFloats(x: seq<real>, n: nat): (r: seq<real>)
    ensures |r| == |x|
  {
    if |x| != 2 * n then x else FlipPrefix(x, n, n / 2)
  }

  /** The block after the loop has exchanged its first s pairs of floats. */
  function FlipPrefix(x: seq<real>, n: nat, s: nat): (r: seq<real>)
    requires |x| == 2 * n && 2 * s <= n
    ensures |r| == |x|
  {
    seq(2 * n, p requires 0 <= p < 2 * n =>
          if p < 2 * s then x[p + n]
          else if n <= p < n + 2 * s then x[p - n]
          else x[p])
  }

  /** Exchanging pair s moves the loop on by one. */
  lemma FlipPrefixStep(x: seq<real>, n: nat, s: nat)
    requires |x| == 2 * n && 2 * s + 2 <= n
    ensures var y := FlipPrefix(x, n, s);
            FlipPrefix(x, n, s + 1)
            == y[2 * s := y[2 * s + n]][2 * s + 1 := y[2 * s + 1 + n]][2 * s + n := y[2 * s]][2 * s + 1 + n := y[2 * s + 1]]
  {
  }

  /** The body of sq_fftflip's loop: floats i, i+1 trade places with floats j, j+1. */
  method SwapPair(a: array<real>, i: nat, j: nat)
    requires i + 1 < j && j + 1 < a.Length
    modifies a
    ensures a[..] == old(a[..])[i := old(a[j])][i + 1 := old(a[j + 1])][j := old(a[i])][j + 1 := old(a[i + 1])]
  {
    var temp0 := a[i + 0];
    var temp1 := a[i + 1];
    a[i + 0] := a[j + 0];
    a[i + 1] := a[j + 1];
    a[j + 0] := temp0;
    a[j + 1] := temp1;
  }

  /** One block of sq_fftflip, in place on the float buffer. */
  method FftFlipBlock(input_bfr: array<real>, in_length: nat)
    requires input_bfr.Length == 2 * in_length
    modifies input_bfr
    ensures input_bfr[..] == FlipFloats(old(input_bfr[..]), in_length)
  {
    ghost var x := input_bfr[..];
    var half := in_length / 2;
    assert 2 * half <= in_length;
    var smpli := 0;
    assert x == FlipPrefix(x, in_length, 0);
    while smpli < half
      invariant 0 <= smpli <= half
      invariant input_bfr[..] == FlipPrefix(x, in_length, smpli)
    {
      FlipPrefixStep(x, in_length, smpli);
      SwapPair(input_bfr, 2 * smpli, 2 * smpli + in_length);
      assert input_bfr[..] == FlipPrefix(x, in_length, smpli + 1);
      smpli := smpli + 1;
    }
  }

  /** sq_fftflip on the float stream: every block of in_length complex samples (2*in_length
      floats) is flipped. */
  method FftFlip(input: seq<real>, in_length: nat) returns (status: int, out: seq<seq<real>>)
    ensures status == (if LengthOk(in_length) then 0 else ERR_ARG_BOUNDS)
    ensures out == (if LengthOk(in_length)
                    then MapFrames(x => FlipFloats(x, in_length), Frames(input, 2 * in_length)) else [])
  {
    if !((in_length >= 2) && (in_length <= MAX_SMPLS_LEN)) {
      return ERR_ARG_BOUNDS, [];
    }
    var input_bfr := new real[2 * in_length];
    ghost var F := (x: seq<real>) => FlipFloats(x, in_length);
    status, out := 0, [];
    var pos: nat := 0;
    while true
      invariant pos <= |input|
      invariant out + MapFrames(F, Frames(input[pos..], 2 * in_length)) == MapFrames(F, Frames(input, 2 * in_length))
      decreases |input| - pos
    {
      var ok, next := Fread(input, pos, input_bfr, 0, 2 * in_length);
      MapAdvance(F, input, pos, 2 * in_length, ok, next, input_bfr[..], out);
      if !ok {
        break;
      }
      FftFlipBlock(input_bfr, in_length);
      out := out + [input_bfr[..]];
      pos := next;
    }
  }

  /** Flipping twice restores the block, for every block length. */
  lemma FlipFloatsInvolution(x: seq<real>, n: nat)
    ensures FlipFloats(FlipFloats(x, n), n) == x
  {
    if |x| == 2 * n {
      var y := FlipFloats(x, n);
      assert forall p :: 0 <= p < 2 * n ==> FlipFloats(y, n)[p] == x[p];
    }
  }

  /** The half-swap of a block of even length: sample i trades places with sample i + n/2. */
  function HalfSwap(f: seq<Cmplx>): (r: seq<Cmplx>)
    ensures |r| == |f|
  {
    f[|f| / 2..] + f[..|f| / 2]
  }

  /** For even n, sq_fftflip swaps sample i with sample i + n/2. */
  lemma FlipEvenIsHalfSwap(f: seq<Cmplx>)
    requires |f| % 2 == 0
    ensures FlipFloats(Interleave(f), |f|) == Interleave(HalfSwap(f))
    ensures forall i :: 0 <= i < |f| / 2 ==> HalfSwap(f)[i] == f[i + |f| / 2] && HalfSwap(f)[i + |f| / 2] == f[i]
  {
    var h := |f| / 2;
    forall p | 0 <= p < 4 * h
      ensures FlipFloats(Interleave(f), |f|)[p] == Interleave(HalfSwap(f))[p]
    {
      FlipEvenAt(f, h, p);
    }
    forall i | 0 <= i < h
      ensures HalfSwap(f)[i] == f[i + h] && HalfSwap(f)[i + h] == f[i]
    {
      HalfSwapAt(f, h, i);
      HalfSwapAt(f, h, i + h);
    }
  }

  lemma FlipEvenAt(f: seq<Cmplx>, h: nat, p: nat)
    requires |f| == 2 * h && p < 4 * h
    ensures FlipFloats(Interleave(f), |f|)[p] == Interleave(HalfSwap(f))[p]
  {
    var i := p / 2;
    assert p == 2 * i || p == 2 * i + 1;
    FlipEvenFloat(f, h, i, p);
  }

  lemma FlipEvenFloat(f: seq<Cmplx>, h: nat, i: nat, p: nat)
    requires |f| == 2 * h && i < 2 * h && (p == 2 * i || p == 2 * i + 1)
    ensures FlipFloats(Interleave(f), |f|)[p] == Interleave(HalfSwap(f))[p]
  {
    FlipEvenSample(f, h, i);
    if p == 2 * i {
      InterleaveAt(HalfSwap(f), i, 0, p);
    } else {
      InterleaveAt(HalfSwap(f), i, 1, p);
    }
  }

  /** Both floats of sample i after the flip are those of sample i of the half-swap. */
  lemma FlipEvenSample(f: seq<Cmplx>, h: nat, i: nat)
    requires |f| == 2 * h && i < 2 * h
    ensures FlipFloats(Interleave(f), |f|)[2 * i] == HalfSwap(f)[i].re
    ensures FlipFloats(Interleave(f), |f|)[2 * i + 1] == HalfSwap(f)[i].im
  {
    HalfSwapAt(f, h, i);
    if i < h {
      FlipLow(f, h, i);
    } else {
      FlipHigh(f, h, i);
    }
  }

  lemma FlipLow(f: seq<Cmplx>, h: nat, i: nat)
    requires |f| == 2 * h && i < h
    ensures FlipFloats(Interleave(f), |f|)[2 * i] == f[i + h].re
    ensures FlipFloats(Interleave(f), |f|)[2 * i + 1] == f[i + h].im
  {
    var x := Interleave(f);
    FlipFloatsEven(x, |f|, h, 2 * i);
    FlipFloatsEven(x, |f|, h, 2 * i + 1);
    InterleaveAt(f, i + h, 0, 2 * i + 2 * h);
    InterleaveAt(f, i + h, 1, 2 * i + 1 + 2 * h);
  }

  lemma FlipHigh(f: seq<Cmplx>, h: nat, i: nat)
    requires |f| == 2 * h && h <= i < 2 * h
    ensures FlipFloats(Interleave(f), |f|)[2 * i] == f[i - h].re
    ensures FlipFloats(Interleave(f), |f|)[2 * i + 1] == f[i - h].im
  {
    var x := Interleave(f);
    FlipFloatsEven(x, |f|, h, 2 * i);
    FlipFloatsEven(x, |f|, h, 2 * i + 1);
    InterleaveAt(f, i - h, 0, 2 * i - 2 * h);
    InterleaveAt(f, i - h, 1, 2 * i + 1 - 2 * h);
  }

  /** For even n = 2h, float p < n takes the value of float p + n and the other way round. */
  lemma FlipFloatsEven(x: seq<real>, n: nat, h: nat, p: nat)
    requires n == 2 * h && |x| == 2 * n && p < 2 * n
    ensures FlipFloats(x, n)[p] == if p < n then x[p + n] else x[p - n]
  {
    assert n / 2 == h;
  }

  lemma HalfSwapAt(f: seq<Cmplx>, h: nat, s: nat)
    requires |f| == 2 * h && s < |f|
    ensures HalfSwap(f)[s] == if s < h then f[s + h] else f[s - h]
  {
    assert |f| / 2 == h;
  }

  /** For odd n the floats move by an odd distance, so real and imaginary parts mix: with
      n = 3, sample 0 becomes (im of sample 1, re of sample 2). */
  lemma FlipOddMixesParts(a: Cmplx, b: Cmplx, c: Cmplx)
    ensures Deinterleave(FlipFloats(Interleave([a, b, c]), 3))[0] == Cmplx(b.im, c.re)
  {
    var fs := [a, b, c];
    InterleaveAt(fs, 1, 1, 3);
    InterleaveAt(fs, 2, 0, 4);
  }

  // ---------------------------------------------------------------- sq_overlap2x

  /** Consecutive half-blocks joined pairwise. */
  function Overlap(hs: seq<seq<Cmplx>>): (r: seq<seq<Cmplx>>)
    ensures |r| == if |hs| >= 1 then |hs| - 1 else 0
    ensures forall j :: 0 <= j < |r| ==> r[j] == hs[j] + hs[j + 1]
  {
    seq(if |hs| >= 1 then |hs| - 1 else 0, j requires 0 <= j < |hs| - 1 => hs[j] + hs[j + 1])
  }

  /** Writing the pair (h1, h2) moves the loop on by one half-block. */
  lemma OverlapStep(out: seq<seq<Cmplx>>, h1: seq<Cmplx>, h2: seq<Cmplx>, rest: seq<seq<Cmplx>>,
                    total: seq<seq<Cmplx>>)
    requires out + Overlap([h1] + ([h2] + rest)) == total
    ensures (out + [h1 + h2]) + Overlap([h2] + rest) == total
  {
    var xs := [h2] + rest;
    OverlapCons(h1, xs);
    assert (out + [h1 + h2]) + Overlap(xs) == out + ([h1 + xs[0]] + Overlap(xs));
  }

  lemma OverlapCons(h: seq<Cmplx>, xs: seq<seq<Cmplx>>)
    requires |xs| > 0
    ensures Overlap([h] + xs) == [h + xs[0]] + Overlap(xs)
  {
    var l, r := Overlap([h] + xs), [h + xs[0]] + Overlap(xs);
    forall j | 0 <= j < |l|
      ensures l[j] == r[j]
    {
      if j > 0 {
        assert ([h] + xs)[j] == xs[j - 1] && ([h] + xs)[j + 1] == xs[j];
      }
    }
  }

  /** memcpy(dst + at, src, |src|). */
  method CopyInto(dst: array<Cmplx>, at: nat, src: array<Cmplx>)
    requires at + src.Length <= dst.Length && dst != src
    modifies dst
    ensures dst[at..at + src.Length] == src[..]
    ensures dst[..at] == old(dst[..at]) && dst[at + src.Length..] == old(dst[at + src.Length..])
  {
    var i := 0;
    while i < src.Length
      invariant 0 <= i <= src.Length
      invariant dst[at..at + i] == src[..i]
      invariant dst[..at] == old(dst[..at]) && dst[at + i..] == old(dst[at + i..])
    {
      dst[at + i] := src[i];
      i := i + 1;
      assert dst[at..at + i] == dst[at..at + i - 1] + [dst[at + i - 1]];
      assert src[..i] == src[..i - 1] + [src[i - 1]];
    }
  }

  /** The two memcpy calls of sq_overlap2x: both half-blocks, one after the other. */
  method JoinHalves(output_bfr: array<Cmplx>, b1: array<Cmplx>, b2: array<Cmplx>)
    requires output_bfr.Length == b1.Length + b2.Length && output_bfr != b1 && output_bfr != b2
    modifies output_bfr
    ensures output_bfr[..] == b1[..] + b2[..]
  {
    CopyInto(output_bfr, 0, b1);
    CopyInto(output_bfr, b1.Length, b2);
    assert output_bfr[..] == output_bfr[..b1.Length] + output_bfr[b1.Length..];
  }

  /** sq_overlap2x: reads half-blocks and writes every pair of consecutive half-blocks,
      so consecutive output blocks overlap by 50%. */
  method Overlap2x(input: seq<Cmplx>, in_length: nat) returns (status: int, out: seq<seq<Cmplx>>)
    ensures status == (if LengthOk(in_length) && in_length % 2 == 0 then 0 else ERR_ARG_BOUNDS)
    ensures out == (if status == 0 then Overlap(Frames(input, in_length / 2)) else [])
  {
    if !((in_length >= 2) && (in_length <= MAX_SMPLS_LEN)) {
      return ERR_ARG_BOUNDS, [];
    }
    if !((in_length / 2) * 2 == in_length) {
      return ERR_ARG_BOUNDS, [];
    }
    var half_len := in_length / 2;
    var input_bfr1 := new Cmplx[half_len];
    var input_bfr2 := new Cmplx[half_len];
    var output_bfr := new Cmplx[in_length];
    status, out := 0, [];
    // The opening half is fetched before the loop; if it is short, no window is ever written.
    var ok0, pos := Fread(input, 0, input_bfr1, 0, half_len);
    ReadStep(input, 0, half_len, ok0, pos, input_bfr1[..]);
    assert input[0..] == input;
    ghost var total := Overlap(Frames(input, half_len));
    while true
      invariant pos <= |input|
      invariant input_bfr1 != input_bfr2 && input_bfr1.Length == half_len && input_bfr2.Length == half_len
      invariant output_bfr != input_bfr1 && output_bfr != input_bfr2
      invariant fresh(input_bfr1) && fresh(input_bfr2)
      invariant out + Overlap([input_bfr1[..]] + Frames(input[pos..], half_len)) == total
      decreases |input| - pos
    {
      var ok, next, out' := OverlapRound(input, pos, input_bfr1, input_bfr2, output_bfr, out, total);
      if !ok {
        break;
      }
      out := out';
      // The newer half becomes the older one for the next window.
      input_bfr1, input_bfr2 := input_bfr2, input_bfr1;
      pos := next;
    }
  }

  /** One turn of sq_overlap2x's loop: read the next half-block into b2 and, if it was
      complete, write b1 followed by b2. */
  method OverlapRound(input: seq<Cmplx>, pos: nat, b1: array<Cmplx>, b2: array<Cmplx>, output_bfr: array<Cmplx>,
                      out: seq<seq<Cmplx>>, ghost total: seq<seq<Cmplx>>)
    returns (ok: bool, next: nat, out': seq<seq<Cmplx>>)
    requires pos <= |input| && 0 < b1.Length == b2.Length && output_bfr.Length == 2 * b1.Length
    requires b1 != b2 && output_bfr != b1 && output_bfr != b2
    requires out + Overlap([b1[..]] + Frames(input[pos..], b1.Length)) == total
    modifies b2, output_bfr
    ensures !ok ==> out == total
    ensures ok ==> pos < next <= |input| && out' + Overlap([b2[..]] + Frames(input[next..], b1.Length)) == total
  {
    var half_len := b1.Length;
    ghost var h1 := b1[..];
    ok, next := Fread(input, pos, b2, 0, half_len);
    ReadStep(input, pos, half_len, ok, next, b2[..]);
    out' := out;
    if ok {
      OverlapStep(out, h1, b2[..], Frames(input[next..], half_len), total);
      JoinHalves(output_bfr, b1, b2);
      out' := out + [output_bfr[..]];
    }
  }

  /** Output block j of sq_overlap2x is input samples [j*h, (j+2)*h) with h = in_length/2. */
  lemma OverlapWindows(input: seq<Cmplx>, half_len: nat, j: nat, a: nat)
    requires half_len > 0 && j < |Overlap(Frames(input, half_len))| && a == j * half_len
    ensures a + 2 * half_len <= |input| && Overlap(Frames(input, half_len))[j] == input[a..a + 2 * half_len]
  {
    var hs := Frames(input, half_len);
    MulSucc(j, half_len);
    FramesAtOffset(input, half_len, j, a);
    FramesAtOffset(input, half_len, j + 1, a + half_len);
    SliceJoin(input, a, a + half_len, a + 2 * half_len);
    assert Overlap(hs)[j] == hs[j] + hs[j + 1];
  }

  lemma SliceJoin<T>(s: seq<T>, a: nat, b: nat, c: nat)
    requires a <= b <= c <= |s|
    ensures s[a..c] == s[a..b] + s[b..c]
  {
  }

  /** Consecutive output blocks of sq_overlap2x share a half-block: the second half of
      block j is the first half of block j + 1. */
  lemma OverlapShares(hs: seq<seq<Cmplx>>, half_len: nat, j: nat)
    requires forall k :: 0 <= k < |hs| ==> |hs[k]| == half_len
    requires j + 1 < |Overlap(hs)|
    ensures Overlap(hs)[j][half_len..] == Overlap(hs)[j + 1][..half_len] == hs[j + 1]
  {
    assert Overlap(hs)[j] == hs[j] + hs[j + 1];
    assert Overlap(hs)[j + 1] == hs[j + 1] + hs[j + 2];
  }
}
