/** sq_wola (src/sq_dsp.c): weighted overlap-add of a window of folds*in_length samples
    into in_length bins, the polyphase front end that precedes an FFT. The history of
    the last W = folds*in_length samples is kept in a circular buffer with cursor smpli;
    after every output frame readlen new samples are read into it. */
module SqWola {
  import opened SqConstants
  import opened SqStreams
  import opened SqDspRaster

  // ---------------------------------------------------------------- argument checks

  /** The argument checks of sq_wola as written. */
  function WolaArgStatus(in_length: nat, folds: nat, overlap: nat): (status: int)
    ensures status == ERR_ARG_BOUNDS
  {
    if !((in_length >= 2) && (in_length <= MAX_ZOOM_LEN)) then ERR_ARG_BOUNDS
    else if folds < 1 then ERR_ARG_BOUNDS
    else if !((overlap < 1) && (overlap >= in_length)) then ERR_ARG_BOUNDS
    else 0
  }

  /** The overlap check as written rejects every overlap once in_length >= 2: no overlap
      is both below 1 and at least in_length. */
  lemma WolaOverlapGuardRejects(in_length: nat, overlap: nat)
    requires in_length >= 2
    ensures !((overlap < 1) && (overlap >= in_length))
  {
  }

  /** The checks as the error message describes them: overlap in [1, in_length). */
  function WolaArgStatusIntended(in_length: nat, folds: nat, overlap: nat): (status: int)
    ensures status == 0 <==> 2 <= in_length <= MAX_ZOOM_LEN && folds >= 1 && 1 <= overlap < in_length
    ensures status != 0 ==> status == ERR_ARG_BOUNDS
  {
    if !((in_length >= 2) && (in_length <= MAX_ZOOM_LEN)) then ERR_ARG_BOUNDS
    else if folds < 1 then ERR_ARG_BOUNDS
    else if !((overlap >= 1) && (overlap < in_length)) then ERR_ARG_BOUNDS
    else 0
  }

  /** A 50% overlap of 64-bin frames over 4 folds is refused as written and accepted as
      intended. */
  lemma WolaGuardExample()
    ensures WolaArgStatus(64, 4, 50) == ERR_ARG_BOUNDS
    ensures WolaArgStatusIntended(64, 4, 50) == 0
  {
  }

  /** Number of new samples read per frame: 3/4 of a frame for overlap 25, 2/4 for
      overlap 50, a whole frame otherwise. */
  function ReadLen(in_length: nat, overlap: nat): (readlen: nat)
    requires in_length >= 2
    ensures 1 <= readlen <= in_length
    ensures readlen < in_length <==> overlap == 25 || overlap == 50
  {
    if overlap == 25 then (in_length * 3) / 4
    else if overlap == 50 then (in_length * 2) / 4
    else in_length
  }

  // ---------------------------------------------------------------- specification

  /** The circular history read from the cursor on: item j is h[(s + j) mod |h|]. */
  function Rotate(h: seq<Cmplx>, s: nat): (r: seq<Cmplx>)
    requires s < |h|
    ensures |r| == |h|
  {
    seq(|h|, j requires 0 <= j < |h| => h[if s + j < |h| then s + j else s + j - |h|])
  }

  lemma RotateAt(h: seq<Cmplx>, s: nat, j: nat)
    requires s < |h| && j < |h|
    ensures Rotate(h, s)[j] == h[(s + j) % |h|]
  {
    ModSmall(s + j, |h|);
  }

  /** Bin k of the fold of window x by weights w over window indices i < t: the weighted
      samples whose index falls on bin k (i mod L == k), accumulated in index order. */
  function FoldSum(x: seq<Cmplx>, w: seq<real>, L: nat, k: nat, t: nat): (r: Cmplx)
    requires L > 0 && t <= |x| && t <= |w|
    ensures (k >= L || t <= k) ==> r == Zero
  {
    if t == 0 then Zero
    else if (t - 1) % L == k then Add(FoldSum(x, w, L, k, t - 1), Scale(w[t - 1], x[t - 1]))
    else FoldSum(x, w, L, k, t - 1)
  }

  /** The frame written for a window x of the history in time order. */
  function Emit(x: seq<Cmplx>, w: seq<real>, L: nat): (r: seq<Cmplx>)
    requires L > 0 && |w| == |x|
    ensures |r| == L && forall k :: 0 <= k < L ==> r[k] == FoldSum(x, w, L, k, |x|)
  {
    seq(L, k requires 0 <= k < L => FoldSum(x, w, L, k, |x|))
  }

  /** The accumulator holds every bin folded up to window index t. */
  predicate FoldedUpTo(acc: seq<Cmplx>, x: seq<Cmplx>, w: seq<real>, L: nat, t: nat)
    requires L > 0 && t <= |x| && t <= |w|
  {
    |acc| == L && forall k :: 0 <= k < L ==> acc[k] == FoldSum(x, w, L, k, t)
  }

  /** The weighted sum of bin k over the first g folds: sum over f < g of
      w[k + f*L] * x[k + f*L]. */
  function FoldOf(x: seq<Cmplx>, w: seq<real>, L: nat, k: nat, g: nat): Cmplx
    requires k < L && g * L <= |x| && |w| == |x|
  {
    if g == 0 then Zero
    else
      MulSucc(g - 1, L);
      Add(FoldOf(x, w, L, k, g - 1), Scale(w[(g - 1) * L + k], x[(g - 1) * L + k]))
  }

  /** The frames sq_wola writes: one per window of |w| samples starting at 0, R, 2R, ...
      for as long as the whole window has been read. */
  function WolaOut(s: seq<Cmplx>, w: seq<real>, L: nat, R: nat): (r: seq<seq<Cmplx>>)
    requires L > 0 && 0 < R <= |w|
    ensures r == [] <==> |s| < |w|
    ensures forall j :: 0 <= j < |r| ==> |r[j]| == L
    decreases |s|
  {
    if |s| < |w| then [] else [Emit(s[..|w|], w, L)] + WolaOut(s[R..], w, L, R)
  }

  // ---------------------------------------------------------------- arithmetic helpers

  lemma ModSmall(a: nat, n: nat)
    requires 0 < n && a < 2 * n
    ensures a % n == if a < n then a else a - n
  {
    if a < n {
      DivUnique(a, n, 0, a);
    } else {
      DivUnique(a, n, 1, a - n);
    }
  }

  lemma ModStep(a: nat, n: nat, r: nat)
    requires n > 0 && a % n == r
    ensures (a + 1) % n == if r + 1 < n then r + 1 else 0
  {
    var q := a / n;
    assert a == q * n + r;
    if r + 1 < n {
      DivUnique(a + 1, n, q, r + 1);
    } else {
      MulSucc(q, n);
      DivUnique(a + 1, n, q + 1, 0);
    }
  }

  lemma ModAdd(a: nat, b: nat, n: nat)
    requires n > 0
    ensures (a % n + b) % n == (a + b) % n
  {
    var q, r := a / n, a % n;
    var q', r' := (r + b) / n, (r + b) % n;
    assert a == q * n + r;
    assert r + b == q' * n + r';
    assert (q + q') * n == q * n + q' * n;
    DivUnique(a + b, n, q + q', r');
  }

  // ---------------------------------------------------------------- circular history

  /** Writing item v at cursor position s + i changes item i of the rotated view. */
  lemma RotateUpdate(h: seq<Cmplx>, s: nat, i: nat, p: nat, v: Cmplx)
    requires s < |h| && i < |h| && p == (if s + i < |h| then s + i else s + i - |h|)
    ensures Rotate(h[p := v], s) == Rotate(h, s)[i := v]
  {
  }

  /** Overwriting item i of x with r[i] extends the prefix taken from r by one. */
  lemma PrefixStep(r: seq<Cmplx>, x: seq<Cmplx>, i: nat)
    requires i < |r| <= |x|
    ensures r[..i + 1] + x[i + 1..] == (r[..i] + x[i..])[i := r[i]]
  {
  }

  /** Moving the cursor on by R turns the view by R. */
  lemma RotateShift(h: seq<Cmplx>, s: nat, R: nat, s': nat)
    requires s < |h| && R <= |h| && s' == (if s + R < |h| then s + R else s + R - |h|)
    ensures s' < |h| && Rotate(h, s') == Rotate(h, s)[R..] + Rotate(h, s)[..R]
  {
    var x := Rotate(h, s);
    forall j | 0 <= j < |h|
      ensures Rotate(h, s')[j] == (x[R..] + x[..R])[j]
    {
      if j < |h| - R {
        assert (x[R..] + x[..R])[j] == x[j + R];
      } else {
        assert (x[R..] + x[..R])[j] == x[j - (|h| - R)];
      }
    }
  }

  /** The fold loop of sq_wola: fftbfr is cleared, then every weighted history item is
      added to bin wndwi mod L while both cursors advance with wrap-around. */
  method FoldBlock(smplbfr: array<Cmplx>, wndwbfr: array<real>, fftbfr: array<Cmplx>, smpli0: nat)
    returns (smpli: nat)
    requires fftbfr.Length > 0 && smplbfr.Length == wndwbfr.Length && smpli0 < smplbfr.Length
    requires fftbfr != smplbfr
    modifies fftbfr
    ensures smpli == smpli0
    ensures fftbfr[..] == Emit(Rotate(smplbfr[..], smpli0), wndwbfr[..], fftbfr.Length)
  {
    var in_length, wndwlen := fftbfr.Length, smplbfr.Length;
    ghost var x := Rotate(smplbfr[..], smpli0);
    ghost var w := wndwbfr[..];
    ZeroBlock(fftbfr);
    var ffti := 0;
    smpli := smpli0;
    var wndwi := 0;
    while wndwi < wndwlen
      invariant 0 <= wndwi <= wndwlen && ffti < in_length
      invariant ffti == wndwi % in_length
      invariant smpli == if smpli0 + wndwi < wndwlen then smpli0 + wndwi else smpli0 + wndwi - wndwlen
      invariant FoldedUpTo(fftbfr[..], x, w, in_length, wndwi)
    {
      ModStep(wndwi, in_length, ffti);
      var c, a, wt := smplbfr[smpli], fftbfr[ffti], wndwbfr[wndwi];
      assert c == x[wndwi] && wt == w[wndwi];
      ghost var acc := fftbfr[..];
      fftbfr[ffti] := Cmplx(a.re + wt * c.re, a.im + wt * c.im);
      assert fftbfr[..] == acc[ffti := Add(a, Scale(wt, c))];
      FoldNext(acc, fftbfr[..], x, w, in_length, wndwi, ffti);
      smpli := smpli + 1;
      if !(smpli < wndwlen) {
        smpli := 0;
      }
      ffti := ffti + 1;
      if !(ffti < in_length) {
        ffti := 0;
      }
      wndwi := wndwi + 1;
    }
    assert fftbfr[..] == Emit(x, w, in_length);
  }

  /** Window index t adds to bin t mod L only. */
  lemma FoldNext(acc: seq<Cmplx>, acc': seq<Cmplx>, x: seq<Cmplx>, w: seq<real>, L: nat, t: nat, r: nat)
    requires L > 0 && t < |x| && t < |w| && r == t % L
    requires FoldedUpTo(acc, x, w, L, t)
    requires acc' == acc[r := Add(acc[r], Scale(w[t], x[t]))]
    ensures FoldedUpTo(acc', x, w, L, t + 1)
  {
  }

  /** The refill loop of sq_wola: the readlen new samples overwrite the oldest ones, so the
      history seen from the advanced cursor drops its first readlen items and ends with
      the new ones. */
  method Refill(smplbfr: array<Cmplx>, readbfr: array<Cmplx>, smpli0: nat) returns (smpli: nat)
    requires smpli0 < smplbfr.Length && readbfr.Length <= smplbfr.Length && smplbfr != readbfr
    modifies smplbfr
    ensures smpli < smplbfr.Length && smpli == (smpli0 + readbfr.Length) % smplbfr.Length
    ensures Rotate(smplbfr[..], smpli) == Rotate(old(smplbfr[..]), smpli0)[readbfr.Length..] + readbfr[..]
  {
    var wndwlen, readlen := smplbfr.Length, readbfr.Length;
    ghost var x := Rotate(smplbfr[..], smpli0);
    smpli := smpli0;
    var readi := 0;
    while readi < readlen
      invariant 0 <= readi <= readlen
      invariant smpli == if smpli0 + readi < wndwlen then smpli0 + readi else smpli0 + readi - wndwlen
      invariant Rotate(smplbfr[..], smpli0) == readbfr[..readi] + x[readi..]
      invariant |x| == wndwlen
    {
      smpli := RefillOne(smplbfr, readbfr, smpli0, readi, smpli, x);
      readi := readi + 1;
    }
    assert readbfr[..readi] == readbfr[..];
    RefillDone(smplbfr[..], smpli0, smpli, readbfr[..], x);
  }

  /** One turn of the refill loop: new item readi goes where the cursor points, and the
      cursor moves on, wrapping at the end of the buffer. */
  method RefillOne(smplbfr: array<Cmplx>, readbfr: array<Cmplx>, smpli0: nat, readi: nat, smpli: nat,
                   ghost x: seq<Cmplx>)
    returns (smpli': nat)
    requires smpli0 < smplbfr.Length == |x| && readi < readbfr.Length <= smplbfr.Length && smplbfr != readbfr
    requires smpli == if smpli0 + readi < smplbfr.Length then smpli0 + readi else smpli0 + readi - smplbfr.Length
    requires Rotate(smplbfr[..], smpli0) == readbfr[..readi] + x[readi..]
    modifies smplbfr
    ensures smpli' == if smpli0 + readi + 1 < smplbfr.Length then smpli0 + readi + 1
                      else smpli0 + readi + 1 - smplbfr.Length
    ensures Rotate(smplbfr[..], smpli0) == readbfr[..readi + 1] + x[readi + 1..]
  {
    ghost var h := smplbfr[..];
    RefillStep(h, smpli0, readi, smpli, readbfr[..], x);
    smplbfr[smpli] := readbfr[readi];
    assert smplbfr[..] == h[smpli := readbfr[readi]];
    smpli' := smpli + 1;
    if !(smpli' < smplbfr.Length) {
      smpli' := 0;
    }
  }

  /** One copy of the refill loop: the view from the old cursor takes one more new item. */
  lemma RefillStep(h: seq<Cmplx>, s: nat, i: nat, p: nat, r: seq<Cmplx>, x: seq<Cmplx>)
    requires s < |h| == |x| && i < |r| <= |x| && p == (if s + i < |h| then s + i else s + i - |h|)
    requires Rotate(h, s) == r[..i] + x[i..]
    ensures Rotate(h[p := r[i]], s) == r[..i + 1] + x[i + 1..]
  {
    RotateUpdate(h, s, i, p, r[i]);
    PrefixStep(r, x, i);
  }

  /** After the refill loop the view from the advanced cursor is the old view without its
      first |r| items, followed by r. */
  lemma RefillDone(h: seq<Cmplx>, s: nat, s': nat, r: seq<Cmplx>, x: seq<Cmplx>)
    requires s < |h| == |x| && |r| <= |x| && s' == (if s + |r| < |h| then s + |r| else s + |r| - |h|)
    requires Rotate(h, s) == r + x[|r|..]
    ensures s' < |h| && s' == (s + |r|) % |h|
    ensures Rotate(h, s') == x[|r|..] + r
  {
    var y := r + x[|r|..];
    RotateShift(h, s, |r|, s');
    assert y[|r|..] == x[|r|..] && y[..|r|] == r;
    ModSmall(s + |r|, |h|);
  }

  /** Writing the frame of the current window and reading R more samples moves the run
      on by one window; a short read ends it. */
  lemma WolaAdvance(input: seq<Cmplx>, w: seq<real>, L: nat, R: nat, pos: nat,
                    out: seq<seq<Cmplx>>, frame: seq<Cmplx>)
    requires L > 0 && 0 < R <= |w| <= pos <= |input|
    requires out + WolaOut(input[pos - |w|..], w, L, R) == WolaOut(input, w, L, R)
    requires frame == Emit(input[pos - |w|..pos], w, L)
    ensures pos + R <= |input| ==>
              (out + [frame]) + WolaOut(input[pos + R - |w|..], w, L, R) == WolaOut(input, w, L, R)
    ensures pos + R > |input| ==> out + [frame] == WolaOut(input, w, L, R)
  {
    var s := input[pos - |w|..];
    assert s[..|w|] == input[pos - |w|..pos];
    assert s[R..] == input[pos + R - |w|..];
    assert WolaOut(s, w, L, R) == [frame] + WolaOut(s[R..], w, L, R);
  }

  /** After a refill the history is the last W samples read, and the cursor has moved on
      by R modulo W. */
  lemma HistoryAdvance(input: seq<Cmplx>, W: nat, R: nat, pos: nat, a: nat, smpli: nat, smpli': nat,
                       h: seq<Cmplx>, r: seq<Cmplx>)
    requires 0 < R <= W <= pos && pos + R <= |input| && pos - W == a
    requires h == input[pos - W..pos] && r == input[pos..pos + R]
    requires smpli == a % W && smpli' == (smpli + R) % W
    ensures h[R..] + r == input[pos + R - W..pos + R]
    ensures smpli' == (a + R) % W
  {
    ModAdd(a, R, W);
  }

  /** The body of sq_wola after the argument checks, src/sq_dsp.c:671-754. It needs
      2 <= in_length and folds >= 1; the overlap, whatever its value, only selects the
      read length. `window` stands for the table init_window fills.
      In dump mode the window is written instead of any frame. A stream shorter than one
      window gives ERR_STREAM_READ and no frame. */
  method WolaBody(input: seq<Cmplx>, in_length: nat, folds: nat, overlap: nat, is_window_dump: bool,
                  window: seq<real>)
    returns (status: int, dump: seq<real>, out: seq<seq<Cmplx>>)
    requires 2 <= in_length <= MAX_ZOOM_LEN && folds >= 1
    requires folds * in_length < UINT_MODULUS && |window| == folds * in_length
    ensures is_window_dump ==> status == 0 && dump == window && out == []
    ensures !is_window_dump && |input| < |window| ==> status == ERR_STREAM_READ && dump == [] && out == []
    ensures !is_window_dump && |input| >= |window| ==>
              status == 0 && dump == [] && out == WolaOut(input, window, in_length, ReadLen(in_length, overlap))
  {
    var wndwlen := folds * in_length;
    MulLe(1, folds, in_length);
    var wndwbfr := new real[wndwlen](i requires 0 <= i < wndwlen => window[i]);
    assert wndwbfr[..] == window;
    if is_window_dump {
      return 0, wndwbfr[..], [];
    }
    var readlen := ReadLen(in_length, overlap);
    var readbfr := new Cmplx[readlen];
    var smplbfr := new Cmplx[wndwlen];
    var fftbfr := new Cmplx[in_length];
    // The history must be full before the first frame can be folded.
    var ok0, pos := Fread(input, 0, smplbfr, 0, wndwlen);
    if !ok0 {
      return ERR_STREAM_READ, [], [];
    }
    status, dump := 0, [];
    out := WolaLoop(input, smplbfr, wndwbfr, readbfr, fftbfr);
  }

  /** The main loop of sq_wola after the initial fill: fold and write a frame, read readlen
      samples into the history, until a read comes up short. */
  method WolaLoop(input: seq<Cmplx>, smplbfr: array<Cmplx>, wndwbfr: array<real>,
                  readbfr: array<Cmplx>, fftbfr: array<Cmplx>)
    returns (out: seq<seq<Cmplx>>)
    requires 0 < readbfr.Length <= smplbfr.Length == wndwbfr.Length && 0 < fftbfr.Length
    requires smplbfr != readbfr && smplbfr != fftbfr && readbfr != fftbfr
    requires smplbfr.Length <= |input| && smplbfr[..] == input[..smplbfr.Length]
    modifies smplbfr, readbfr, fftbfr
    ensures out == WolaOut(input, wndwbfr[..], fftbfr.Length, readbfr.Length)
  {
    var wndwlen, readlen, in_length := smplbfr.Length, readbfr.Length, fftbfr.Length;
    out := [];
    var smpli, pos := 0, wndwlen;
    ghost var k: nat := 0;
    assert input[pos - wndwlen..] == input;
    assert Rotate(smplbfr[..], 0) == smplbfr[..];
    while true
      invariant WolaProgress(input, smplbfr[..], wndwbfr[..], in_length, readlen, pos, smpli, k, out)
      decreases |input| - pos
    {
      var ok, pos', smpli', out' := WolaRound(input, smplbfr, wndwbfr, readbfr, fftbfr, pos, smpli, k, out);
      if !ok {
        out := out';
        break;
      }
      pos, smpli, out, k := pos', smpli', out', k + 1;
    }
  }

  /** The invariant of sq_wola's main loop, with the k-th window of the stream (starting at
      k*readlen) in the history: seen from the cursor the history is that window in time
      order, and out holds the frames of the windows before it. */
  ghost predicate WolaProgress(input: seq<Cmplx>, hist: seq<Cmplx>, window: seq<real>, L: nat, R: nat,
                               pos: nat, smpli: nat, k: nat, out: seq<seq<Cmplx>>)
  {
    L > 0 && 0 < R <= |window| == |hist| <= pos <= |input| && smpli < |hist|
    && pos - |hist| == Times(k, R) && smpli == Times(k, R) % |hist|
    && Rotate(hist, smpli) == input[pos - |hist|..pos]
    && out + WolaOut(input[pos - |hist|..], window, L, R) == WolaOut(input, window, L, R)
  }

  /** One turn of sq_wola's main loop: fold the current window into fftbfr and write it,
      then read readlen new samples into the history; a short read ends the stream. */
  method WolaRound(input: seq<Cmplx>, smplbfr: array<Cmplx>, wndwbfr: array<real>,
                   readbfr: array<Cmplx>, fftbfr: array<Cmplx>, pos: nat, smpli: nat, ghost k: nat,
                   out: seq<seq<Cmplx>>)
    returns (ok: bool, pos': nat, smpli': nat, out': seq<seq<Cmplx>>)
    requires smplbfr != readbfr && smplbfr != fftbfr && readbfr != fftbfr
    requires readbfr.Length <= smplbfr.Length && smplbfr.Length == wndwbfr.Length
    requires WolaProgress(input, smplbfr[..], wndwbfr[..], fftbfr.Length, readbfr.Length, pos, smpli, k, out)
    modifies smplbfr, readbfr, fftbfr
    ensures !ok ==> out' == WolaOut(input, wndwbfr[..], fftbfr.Length, readbfr.Length)
    ensures ok ==> pos < pos'
    ensures ok ==> WolaProgress(input, smplbfr[..], wndwbfr[..], fftbfr.Length, readbfr.Length, pos', smpli', k + 1, out')
  {
    var wndwlen, readlen := smplbfr.Length, readbfr.Length;
    ghost var window := wndwbfr[..];
    smpli' := FoldBlock(smplbfr, wndwbfr, fftbfr, smpli);
    WolaAdvance(input, window, fftbfr.Length, readlen, pos, out, fftbfr[..]);
    out' := out + [fftbfr[..]];
    ok, pos' := Fread(input, pos, readbfr, 0, readlen);
    if ok {
      ghost var h := Rotate(smplbfr[..], smpli');
      smpli' := Refill(smplbfr, readbfr, smpli');
      HistoryAdvance(input, wndwlen, readlen, pos, Times(k, readlen), smpli, smpli', h, readbfr[..]);
      assert readbfr[..] == readbfr[0..readlen];
    }
  }


  // ---------------------------------------------------------------- properties

  /** Window k of the run starts at input sample k*R: frame k folds samples
      [k*R, k*R + |w|). */
  lemma {:induction false} WolaOutAt(s: seq<Cmplx>, w: seq<real>, L: nat, R: nat, k: nat, a: nat)
    requires L > 0 && 0 < R <= |w| && k < |WolaOut(s, w, L, R)| && a == k * R
    ensures a + |w| <= |s| && WolaOut(s, w, L, R)[k] == Emit(s[a..a + |w|], w, L)
    decreases k
  {
    if k > 0 {
      MulPred(k, R);
      WolaOutAt(s[R..], w, L, R, k - 1, a - R);
      assert s[R..][a - R..a - R + |w|] == s[a..a + |w|];
    }
  }

  /** A stream of N >= |w| samples gives (N - |w|) / R + 1 frames. */
  lemma {:induction false} WolaOutCount(s: seq<Cmplx>, w: seq<real>, L: nat, R: nat)
    requires L > 0 && 0 < R <= |w|
    ensures |WolaOut(s, w, L, R)| == if |s| < |w| then 0 else (|s| - |w|) / R + 1
    decreases |s|
  {
    if |s| >= |w| {
      WolaOutCount(s[R..], w, L, R);
      if |s| - R >= |w| {
        DivStep(|s| - |w|, R);
      } else {
        DivUnique(|s| - |w|, R, 0, |s| - |w|);
      }
    }
  }

  /** Within one block of L window indices bin k picks up exactly index a + k. */
  lemma {:induction false} FoldSumPartial(x: seq<Cmplx>, w: seq<real>, L: nat, k: nat, g: nat, a: nat, r: nat)
    requires k < L && a == g * L && r <= L && a + L <= |x| && |w| == |x|
    ensures FoldSum(x, w, L, k, a + r)
            == if r > k then Add(FoldSum(x, w, L, k, a), Scale(w[a + k], x[a + k])) else FoldSum(x, w, L, k, a)
    decreases r
  {
    if r > 0 {
      FoldSumPartial(x, w, L, k, g, a, r - 1);
      DivUnique(a + r - 1, L, g, r - 1);
    }
  }

  /** Over whole folds the accumulated bin is the closed-form sum over folds. */
  lemma FoldClosed(x: seq<Cmplx>, w: seq<real>, L: nat, k: nat, g: nat)
    requires k < L && g * L <= |x| && |w| == |x|
    ensures FoldSum(x, w, L, k, g * L) == FoldOf(x, w, L, k, g)
  {
    FoldClosedAt(x, w, L, k, g, g * L);
  }

  lemma {:induction false} FoldClosedAt(x: seq<Cmplx>, w: seq<real>, L: nat, k: nat, g: nat, a: nat)
    requires k < L && a == g * L && a <= |x| && |w| == |x|
    ensures FoldSum(x, w, L, k, a) == FoldOf(x, w, L, k, g)
    decreases g
  {
    if g > 0 {
      var a' := a - L;
      MulPred(g, L);
      FoldClosedAt(x, w, L, k, g - 1, a');
      FoldSumPartial(x, w, L, k, g - 1, a', L);
      assert a' + L == a;
    }
  }

  /** Output bin k of a frame is the sum over the folds f of w[k + f*L] times history item
      (smpli + k + f*L) mod W. */
  lemma EmitClosedForm(h: seq<Cmplx>, smpli: nat, w: seq<real>, L: nat, folds: nat, k: nat)
    requires L > 0 && smpli < |h| && |w| == |h| == folds * L && k < L
    ensures Emit(Rotate(h, smpli), w, L)[k] == FoldOf(Rotate(h, smpli), w, L, k, folds)
    ensures forall f :: 0 <= f < folds ==>
              f * L + k < |h| && Rotate(h, smpli)[f * L + k] == h[(smpli + f * L + k) % |h|]
  {
    var x := Rotate(h, smpli);
    assert |x| == folds * L;
    FoldClosed(x, w, L, k, folds);
    assert Emit(x, w, L)[k] == FoldSum(x, w, L, k, folds * L);
    RotatedFolds(h, smpli, L, folds, k);
  }

  lemma RotatedFolds(h: seq<Cmplx>, smpli: nat, L: nat, folds: nat, k: nat)
    requires smpli < |h| == folds * L && k < L
    ensures forall f :: 0 <= f < folds ==>
              f * L + k < |h| && Rotate(h, smpli)[f * L + k] == h[(smpli + f * L + k) % |h|]
  {
    forall f | 0 <= f < folds
      ensures f * L + k < |h| && Rotate(h, smpli)[f * L + k] == h[(smpli + f * L + k) % |h|]
    {
      RotatedFoldAt(h, smpli, L, folds, f, k, f * L);
    }
  }

  /** Item k of fold f of the rotated history is a history item, counted round from the
      cursor. */
  lemma RotatedFoldAt(h: seq<Cmplx>, smpli: nat, L: nat, folds: nat, f: nat, k: nat, a: nat)
    requires smpli < |h| == folds * L && f < folds && k < L && a == f * L
    ensures a + k < |h| && Rotate(h, smpli)[a + k] == h[(smpli + a + k) % |h|]
  {
    MulSucc(f, L);
    MulLe(f + 1, folds, L);
    RotateAt(h, smpli, a + k);
  }

  /** Worked example of the closed form: a single fold with a flat window of ones passes
      the window through. */
  lemma {:induction false} FoldOneFlat(x: seq<Cmplx>, w: seq<real>, k: nat)
    requires |w| == |x| && k < |x| && forall i :: 0 <= i < |w| ==> w[i] == 1.0
    ensures FoldOf(x, w, |x|, k, 1) == Add(Zero, x[k])
  {
    assert Scale(w[k], x[k]) == x[k];
  }
}
