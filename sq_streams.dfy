/** The blocking read model shared by every block: a stream is the sequence of items it
    still holds, and `fread` of n items either delivers all n or hits end of stream. */
module SqStreams {

  /** The complete blocks of `n` items that successive reads of `n` deliver from `s`;
      a trailing partial block is never delivered. */
  function Frames<T>(s: seq<T>, n: nat): (r: seq<seq<T>>)
    requires n > 0
    ensures forall j :: 0 <= j < |r| ==> |r[j]| == n
    decreases |s|
  {
    if |s| < n then [] else [s[..n]] + Frames(s[n..], n)
  }

  /** The stream written by a sequence of blocks. */
  function Flatten<T>(fs: seq<seq<T>>): (s: seq<T>)
  {
    if fs == [] then [] else fs[0] + Flatten(fs[1..])
  }

  lemma FramesUnfold<T>(s: seq<T>, p: nat, n: nat)
    requires n > 0 && p + n <= |s|
    ensures Frames(s[p..], n) == [s[p..p + n]] + Frames(s[p + n..], n)
  {
    assert s[p..][..n] == s[p..p + n];
    assert s[p..][n..] == s[p + n..];
  }

  lemma FramesShort<T>(s: seq<T>, p: nat, n: nat)
    requires n > 0 && p <= |s| < p + n
    ensures Frames(s[p..], n) == []
  {
  }

  lemma {:induction false} FramesCount<T>(s: seq<T>, n: nat)
    requires n > 0
    ensures |Frames(s, n)| == |s| / n
    decreases |s|
  {
    if |s| >= n {
      FramesCount(s[n..], n);
      DivStep(|s|, n);
    }
  }

  /** Block j of the stream is items [j*n, (j+1)*n). */
  lemma {:induction false} FramesAt<T>(s: seq<T>, n: nat, j: nat)
    requires n > 0 && j < |Frames(s, n)|
    ensures (j + 1) * n <= |s|
    ensures Frames(s, n)[j] == s[j * n..(j + 1) * n]
    decreases j
  {
    if j > 0 {
      FramesAt(s[n..], n, j - 1);
      assert (j - 1) * n + n == j * n;
      assert s[n..][(j - 1) * n..j * n] == s[j * n..(j + 1) * n];
    }
  }

  /** FramesAt with the offset a = j*n given by name, for proofs that avoid products. */
  lemma {:induction false} FramesAtOffset<T>(s: seq<T>, n: nat, j: nat, a: nat)
    requires n > 0 && j < |Frames(s, n)| && a == j * n
    ensures a + n <= |s| && Frames(s, n)[j] == s[a..a + n]
    decreases j
  {
    if j > 0 {
      MulPred(j, n);
      FramesAtOffset(s[n..], n, j - 1, a - n);
      assert s[n..][a - n..a] == s[a..a + n];
    }
  }

  lemma MulPred(j: nat, n: nat)
    requires j > 0
    ensures (j - 1) * n == j * n - n && j * n >= n
  {
  }

  /** Splitting a stream into blocks and writing them back gives the stream up to its
      trailing partial block. */
  lemma {:induction false} FlattenFrames<T>(s: seq<T>, n: nat)
    requires n > 0
    ensures |Flatten(Frames(s, n))| <= |s| < |Flatten(Frames(s, n))| + n
    ensures Flatten(Frames(s, n)) == s[..|Flatten(Frames(s, n))|]
    decreases |s|
  {
    if |s| >= n {
      FlattenFrames(s[n..], n);
      var m := |Flatten(Frames(s[n..], n))|;
      assert Flatten(Frames(s, n)) == s[..n] + Flatten(Frames(s[n..], n));
      assert s[..n] + s[n..][..m] == s[..n + m];
    }
  }

  /** Blocks of the right length survive a write followed by a read. */
  lemma {:induction false} FramesFlatten<T>(fs: seq<seq<T>>, n: nat)
    requires n > 0 && forall j :: 0 <= j < |fs| ==> |fs[j]| == n
    ensures Frames(Flatten(fs), n) == fs
    decreases |fs|
  {
    if fs != [] {
      FramesFlatten(fs[1..], n);
      var s := Flatten(fs);
      assert s == fs[0] + Flatten(fs[1..]);
      assert s[..n] == fs[0];
      assert s[n..] == Flatten(fs[1..]);
    }
  }

  lemma FlattenAppend<T>(fs: seq<seq<T>>, f: seq<T>)
    ensures Flatten(fs + [f]) == Flatten(fs) + f
    decreases |fs|
  {
    if fs == [] {
      assert [f][1..] == [];
    } else {
      assert (fs + [f])[1..] == fs[1..] + [f];
      FlattenAppend(fs[1..], f);
    }
  }

  lemma DivStep(a: nat, n: nat)
    requires 0 < n <= a
    ensures (a - n) / n == a / n - 1
  {
    var q, r := (a - n) / n, (a - n) % n;
    assert a == (q + 1) * n + r;
    DivUnique(a, n, q + 1, r);
  }

  lemma DivUnique(a: nat, n: nat, q: nat, r: nat)
    requires 0 <= r < n && a == q * n + r
    ensures a / n == q && a % n == r
  {
    var q' := a / n;
    if q' > q {
      MulLe(q + 1, q', n);
    } else if q' < q {
      MulLe(q' + 1, q, n);
    }
  }

  lemma MulSucc(j: nat, n: nat)
    ensures (j + 1) * n == j * n + n
  {
  }

  /** k*n as k steps of n, for loop invariants over an offset that moves by n each
      turn: stepping it needs no multiplication. */
  function Times(k: nat, n: nat): nat
  {
    if k == 0 then 0 else Times(k - 1, n) + n
  }

  lemma {:induction false} TimesIsProduct(k: nat, n: nat)
    ensures Times(k, n) == k * n
  {
    if k > 0 {
      TimesIsProduct(k - 1, n);
      MulSucc(k - 1, n);
    }
  }

  lemma MulLe(x: nat, y: nat, n: nat)
    requires x <= y
    ensures x * n <= y * n
  {
  }

  /** `fread(buf + at, sizeof(T), n, stream)` on a stream whose unread items are
      `input[pos..]`: copies as many of the next n items as there are, and reports
      whether all n were read. A short read leaves the stream at its end. */
  method Fread<T>(input: seq<T>, pos: nat, buf: array<T>, at: nat, n: nat)
    returns (ok: bool, next: nat)
    requires pos <= |input| && at + n <= buf.Length
    modifies buf
    ensures ok == (pos + n <= |input|)
    ensures next == if ok then pos + n else |input|
    ensures next - pos <= n
    ensures buf[at..at + (next - pos)] == input[pos..next]
    ensures buf[..at] == old(buf[..at])
    ensures buf[at + (next - pos)..] == old(buf[at + (next - pos)..])
  {
    ok := pos + n <= |input|;
    next := if ok then pos + n else |input|;
    ghost var orig := buf[..];
    var i := 0;
    while i < next - pos
      invariant 0 <= i <= next - pos
      invariant forall k :: at <= k < at + i ==> buf[k] == input[pos + (k - at)]
      invariant forall k :: 0 <= k < buf.Length && !(at <= k < at + i) ==> buf[k] == orig[k]
    {
      buf[at + i] := input[pos + i];
      i := i + 1;
    }
  }
}
