/** Error codes, length limits and the interleaved complex sample of SETIkit
    (src/sq_constants.h, src/sq_imaging.h). */
module SqConstants {

  // Error codes returned by every block (negative means failure).
  const ERR_ARG_BOUNDS: int := -1
  const ERR_STREAM_OPEN: int := -2
  const ERR_STREAM_CLOSE: int := -3
  const ERR_STREAM_READ: int := -4
  const ERR_STREAM_WRITE: int := -5
  const ERR_MALLOC: int := -6
  const ERR_UNKNOWN_OPTION: int := -7
  const ERR_UNKNOWN_WINDOW: int := -8

  // Length limits.
  const MAX_SMPLS_LEN: nat := 134217728
  const MAX_WNDW_LEN: nat := 134217728
  const MAX_ZOOM_LEN: nat := 134217728

  /** Largest grey level of a PGM image. */
  const MAX_PIXEL_VAL: nat := 255

  /** Indices of the two floats of a `cmplx`. */
  const REAL: int := 0
  const IMAG: int := 1

  /** Unsigned 32-bit arithmetic wraps modulo this. */
  const UINT_MODULUS: nat := 0x1_0000_0000

  function Min(a: nat, b: nat): nat
  {
    if a <= b then a else b
  }

  /** A complex sample, stored on the wire as two floats (real first). */
  datatype Cmplx = Cmplx(re: real, im: real)

  const Zero: Cmplx := Cmplx(0.0, 0.0)

  function Add(a: Cmplx, b: Cmplx): Cmplx
  {
    Cmplx(a.re + b.re, a.im + b.im)
  }

  /** A real coefficient scaling both parts of a sample. */
  function Scale(w: real, a: Cmplx): Cmplx
  {
    Cmplx(w * a.re, w * a.im)
  }

  /** `c[component]` for component REAL or IMAG. */
  function Part(c: Cmplx, component: int): real
    requires component == REAL || component == IMAG
  {
    if component == REAL then c.re else c.im
  }

  /** A frame of `n` zero samples. */
  function Zeros(n: nat): (z: seq<Cmplx>)
    ensures |z| == n && forall i :: 0 <= i < n ==> z[i] == Zero
  {
    seq(n, _ => Zero)
  }

  /** The float layout of a complex buffer: re0, im0, re1, im1, ... */
  function Interleave(f: seq<Cmplx>): (x: seq<real>)
    ensures |x| == 2 * |f|
  {
    if f == [] then [] else [f[0].re, f[0].im] + Interleave(f[1..])
  }

  /** Float q = 2*s + c of the layout is part c of sample s. */
  lemma {:induction false} InterleaveAt(f: seq<Cmplx>, s: nat, c: nat, q: nat)
    requires s < |f| && c < 2 && q == 2 * s + c
    ensures Interleave(f)[q] == if c == 0 then f[s].re else f[s].im
    decreases s
  {
    assert Interleave(f) == [f[0].re, f[0].im] + Interleave(f[1..]);
    if s > 0 {
      InterleaveAt(f[1..], s - 1, c, q - 2);
    }
  }

  /** Reads an even number of floats back as complex samples. */
  function Deinterleave(x: seq<real>): (f: seq<Cmplx>)
    requires |x| % 2 == 0
    ensures |f| == |x| / 2
    ensures forall i :: 0 <= i < |f| ==> f[i] == Cmplx(x[2 * i], x[2 * i + 1])
  {
    seq(|x| / 2, i requires 0 <= i < |x| / 2 => Cmplx(x[2 * i], x[2 * i + 1]))
  }

  /** Left-to-right sum of reals, as a running accumulator computes it. */
  function Sum(xs: seq<real>): real
  {
    if xs == [] then 0.0 else Sum(xs[..|xs| - 1]) + xs[|xs| - 1]
  }

  function Reals(f: seq<Cmplx>): (xs: seq<real>)
    ensures |xs| == |f| && forall i :: 0 <= i < |f| ==> xs[i] == f[i].re
  {
    seq(|f|, i requires 0 <= i < |f| => f[i].re)
  }

  function Imags(f: seq<Cmplx>): (xs: seq<real>)
    ensures |xs| == |f| && forall i :: 0 <= i < |f| ==> xs[i] == f[i].im
  {
    seq(|f|, i requires 0 <= i < |f| => f[i].im)
  }

  lemma DeinterleaveInterleave(f: seq<Cmplx>)
    ensures Deinterleave(Interleave(f)) == f
  {
    forall i | 0 <= i < |f|
      ensures Deinterleave(Interleave(f))[i] == f[i]
    {
      InterleaveAt(f, i, 0, 2 * i);
      InterleaveAt(f, i, 1, 2 * i + 1);
    }
  }
}
