/** The image kernels of src/sq_imaging.c: an image is a raster of rows*cols floats in
    row-major order, read from a float stream, optionally averaged over groups of rows,
    chopped to a sub-rectangle, scaled and written as an 8-bit PGM file. */
module SqImaging {
  import opened SqConstants
  import opened SqStreams

  /** The offset n*r of row r in a raster of rows of n floats, the product the kernels
      index with; it is r steps of n. */
  function RowStart(r: nat, n: nat): (o: nat)
    ensures o == Times(r, n)
  {
    TimesIsProduct(r, n);
    n * r
  }

  // ---------------------------------------------------------------------------------
  // sq_read_img
  // ---------------------------------------------------------------------------------

  /** sq_read_img: rows and cols must both be positive. Rows are read one at a time
      until `rows` rows are in or the stream runs short; the number of complete rows is
      returned. A short last read still copies what the stream had left. */
  method ReadImg(input: seq<real>, img_buf: array<real>, rows: int, cols: int) returns (status: int)
    requires rows > 0 && cols > 0 ==> img_buf.Length >= rows * cols
    modifies img_buf
    ensures !(rows > 0 && cols > 0) ==> status == ERR_ARG_BOUNDS && img_buf[..] == old(img_buf[..])
    ensures rows > 0 && cols > 0 ==>
              status == Min(rows, |input| / cols)
              && img_buf[..Min(|input|, rows * cols)] == input[..Min(|input|, rows * cols)]
              && img_buf[Min(|input|, rows * cols)..] == old(img_buf[Min(|input|, rows * cols)..])
  {
    if !((rows > 0) && (cols > 0)) {
      return ERR_ARG_BOUNDS;
    }
    ghost var orig := img_buf[..];
    var rowi: nat := 0;
    while rowi < rows
      invariant rowi <= rows && Times(rowi, cols) <= |input| && Times(rowi, cols) <= img_buf.Length
      invariant img_buf[..Times(rowi, cols)] == input[..Times(rowi, cols)]
      invariant img_buf[Times(rowi, cols)..] == orig[Times(rowi, cols)..]
    {
      var at := rowi * cols;
      RowFits(rowi, rows, cols, at);
      var ok := ReadRow(input, img_buf, at, cols, orig);
      if !ok {
        ShortRaster(|input|, rows, cols, rowi, at);
        return rowi;
      }
      rowi := rowi + 1;
    }
    FullRaster(|input|, rows, cols);
    return rows;
  }

  /** One fread of a row at float offset at: the raster read so far grows by the row,
      or by what the stream had left. */
  method ReadRow(input: seq<real>, img_buf: array<real>, at: nat, cols: nat, ghost orig: seq<real>)
    returns (ok: bool)
    requires at <= |input| && at + cols <= img_buf.Length && |orig| == img_buf.Length
    requires img_buf[..at] == input[..at] && img_buf[at..] == orig[at..]
    modifies img_buf
    ensures ok == (at + cols <= |input|)
    ensures ok ==> img_buf[..at + cols] == input[..at + cols] && img_buf[at + cols..] == orig[at + cols..]
    ensures !ok ==> img_buf[..|input|] == input && img_buf[|input|..] == orig[|input|..]
  {
    var next;
    ok, next := Fread(input, at, img_buf, at, cols);
    assert img_buf[..next] == img_buf[..at] + img_buf[at..next];
    assert input[..next] == input[..at] + input[at..next];
    assert old(img_buf[at..])[next - at..] == orig[next..];
  }

  /** Row rowi of the raster lies at float rowi*cols, and the next row starts cols later. */
  lemma RowFits(rowi: nat, rows: nat, cols: nat, at: nat)
    requires rowi < rows && at == rowi * cols
    ensures at == Times(rowi, cols) && at + cols == Times(rowi + 1, cols) && at + cols <= rows * cols
  {
    TimesIsProduct(rowi, cols);
    MulLe(rowi + 1, rows, cols);
    MulSucc(rowi, cols);
  }

  /** A short read of row rowi: the stream held rowi complete rows and less than the raster. */
  lemma ShortRaster(len: nat, rows: nat, cols: nat, rowi: nat, at: nat)
    requires 0 < cols && rowi < rows && at == rowi * cols && at <= len < at + cols
    ensures rowi == Min(rows, len / cols) && len == Min(len, rows * cols)
  {
    DivUnique(len, cols, rowi, len - at);
    MulLe(rowi + 1, rows, cols);
    MulSucc(rowi, cols);
  }

  /** All rows read: the stream held at least the whole raster. */
  lemma FullRaster(len: nat, rows: nat, cols: nat)
    requires 0 < cols && Times(rows, cols) <= len
    ensures rows == Min(rows, len / cols) && Times(rows, cols) == rows * cols == Min(len, rows * cols)
  {
    TimesIsProduct(rows, cols);
    DivAtLeast(len, cols, rows);
  }

  lemma DivAtLeast(m: nat, n: nat, q: nat)
    requires n > 0 && q * n <= m
    ensures q <= m / n
  {
    var q', r := m / n, m % n;
    if q' < q {
      MulLe(q' + 1, q, n);
    }
  }

  // ---------------------------------------------------------------------------------
  // sq_average_lines
  // ---------------------------------------------------------------------------------

  /** The first `rows` rows of a row-major raster with `cols` columns. */
  function RowsOf(x: seq<real>, cols: nat, rows: nat): (rs: seq<seq<real>>)
    requires rows * cols <= |x|
    ensures |rs| == rows && forall r :: 0 <= r < rows ==> |rs[r]| == cols
    decreases rows
  {
    if rows == 0 then []
    else
      MulPred(rows, cols);
      [x[..cols]] + RowsOf(x[cols..], cols, rows - 1)
  }

  /** Row r starts at float r*cols. */
  lemma {:induction false} RowsOfAt(x: seq<real>, cols: nat, rows: nat, r: nat, at: nat)
    requires rows * cols <= |x| && r < rows && at == r * cols
    ensures at + cols <= |x| && RowsOf(x, cols, rows)[r] == x[at..at + cols]
    decreases r
  {
    MulPred(rows, cols);
    if r > 0 {
      MulPred(r, cols);
      RowsOfAt(x[cols..], cols, rows - 1, r - 1, at - cols);
      assert x[cols..][at - cols..at] == x[at..at + cols];
    }
  }

  /** RowsOfAt for the offset cols*r the loops compute. */
  lemma RowOffset(x: seq<real>, cols: nat, rows: nat, r: nat, at: nat)
    requires rows * cols <= |x| && r < rows && at == cols * r
    ensures at + cols <= |x| && RowsOf(x, cols, rows)[r] == x[at..at + cols]
  {
    RowsOfAt(x, cols, rows, r, at);
  }

  /** Column c of a row, or 0 past its end (never the case for rows of the raster). */
  function Cell(row: seq<real>, c: nat): real
  {
    if c < |row| then row[c] else 0.0
  }

  /** The running sum of column c over a group of rows, in row order. */
  function ColumnSum(g: seq<seq<real>>, c: nat): real
  {
    if g == [] then 0.0 else ColumnSum(g[..|g| - 1], c) + Cell(g[|g| - 1], c)
  }

  /** The output row of one group of avglines rows: each column summed, then divided. */
  function MeanRow(g: seq<seq<real>>, cols: nat, avglines: nat): (m: seq<real>)
    requires avglines > 0
    ensures |m| == cols
  {
    seq(cols, c requires 0 <= c < cols => ColumnSum(g, c) / (avglines as real))
  }

  /** The rows written by sq_average_lines: one per complete group of avglines rows. */
  function Averaged(rs: seq<seq<real>>, cols: nat, avglines: nat): (out: seq<seq<real>>)
    requires avglines > 0
    ensures |out| == |rs| / avglines && forall j :: 0 <= j < |out| ==> |out[j]| == cols
  {
    FramesCount(rs, avglines);
    seq(|Frames(rs, avglines)|, j requires 0 <= j < |Frames(rs, avglines)| =>
          MeanRow(Frames(rs, avglines)[j], cols, avglines))
  }

  lemma AveragedUnfold(rs: seq<seq<real>>, p: nat, cols: nat, avglines: nat)
    requires avglines > 0 && p + avglines <= |rs|
    ensures Averaged(rs[p..], cols, avglines)
            == [MeanRow(rs[p..p + avglines], cols, avglines)] + Averaged(rs[p + avglines..], cols, avglines)
  {
    FramesUnfold(rs, p, avglines);
    var l := Averaged(rs[p..], cols, avglines);
    var r := [MeanRow(rs[p..p + avglines], cols, avglines)] + Averaged(rs[p + avglines..], cols, avglines);
    assert |l| == |r|;
    forall j | 0 <= j < |l|
      ensures l[j] == r[j]
    {
      if j > 0 {
        assert Frames(rs[p..], avglines)[j] == Frames(rs[p + avglines..], avglines)[j - 1];
      }
    }
  }

  /** Output row j, column c is the mean of column c over input rows
      j*avglines .. (j+1)*avglines - 1. */
  lemma AveragedAt(rs: seq<seq<real>>, cols: nat, avglines: nat, j: nat, c: nat)
    requires avglines > 0 && j < |rs| / avglines && c < cols
    ensures (j + 1) * avglines <= |rs|
    ensures Averaged(rs, cols, avglines)[j][c]
            == ColumnSum(rs[j * avglines..(j + 1) * avglines], c) / (avglines as real)
  {
    FramesCount(rs, avglines);
    FramesAt(rs, avglines, j);
  }

  /** ColumnSum adds the new row's value. */
  lemma ColumnSumSnoc(g: seq<seq<real>>, row: seq<real>, c: nat)
    ensures ColumnSum(g + [row], c) == ColumnSum(g, c) + Cell(row, c)
  {
    assert (g + [row])[..|g|] == g;
  }

  /** The inner accumulation loop of sq_average_lines for one input row. */
  method AccumulateRow(average_row: array<real>, img_in: array<real>, at: nat)
    requires at + average_row.Length <= img_in.Length && average_row != img_in
    modifies average_row
    ensures forall c :: 0 <= c < average_row.Length ==> average_row[c] == old(average_row[c]) + img_in[at + c]
  {
    var coli := 0;
    while coli < average_row.Length
      invariant 0 <= coli <= average_row.Length
      invariant forall c :: 0 <= c < coli ==> average_row[c] == old(average_row[c]) + img_in[at + c]
      invariant forall c :: coli <= c < average_row.Length ==> average_row[c] == old(average_row[c])
    {
      average_row[coli] := average_row[coli] + img_in[at + coli];
      coli := coli + 1;
    }
  }

  /** The flush of a complete group: each column divided by avglines, written at
      out_at after the output so far, and the accumulator cleared. */
  method EmitRow(average_row: array<real>, img_out: array<real>, out_at: nat, avglines: nat,
                 ghost acc: seq<real>, ghost done: seq<real>, ghost orig: seq<real>)
    requires avglines > 0 && out_at + average_row.Length <= img_out.Length && average_row != img_out
    requires average_row[..] == acc && |orig| == img_out.Length
    requires img_out[..out_at] == done && img_out[out_at..] == orig[out_at..]
    modifies average_row, img_out
    ensures img_out[..out_at + |acc|]
            == done + seq(|acc|, c requires 0 <= c < |acc| => acc[c] / (avglines as real))
    ensures img_out[out_at + |acc|..] == orig[out_at + |acc|..]
    ensures forall c :: 0 <= c < average_row.Length ==> average_row[c] == 0.0
  {
    var n := average_row.Length;
    var coli := 0;
    while coli < n
      invariant 0 <= coli <= n
      invariant img_out[..out_at + coli] == done + seq(coli, c requires 0 <= c < coli => acc[c] / (avglines as real))
      invariant img_out[out_at + coli..] == orig[out_at + coli..]
      invariant forall c :: 0 <= c < coli ==> average_row[c] == 0.0
      invariant forall c :: coli <= c < n ==> average_row[c] == acc[c]
    {
      average_row[coli] := average_row[coli] / (avglines as real);
      img_out[out_at + coli] := average_row[coli];
      average_row[coli] := 0.0;
      coli := coli + 1;
      assert img_out[..out_at + coli] == img_out[..out_at + coli - 1] + [img_out[out_at + coli - 1]];
    }
  }

  /** One row of the outer loop of sq_average_lines joins the group in progress. */
  method AddRowToGroup(average_row: array<real>, img_in: array<real>, at: nat,
                       ghost rs: seq<seq<real>>, ghost gstart: nat, ghost rowi: nat)
    requires at + average_row.Length <= img_in.Length && average_row != img_in
    requires gstart <= rowi < |rs| && rs[rowi] == img_in[at..at + average_row.Length]
    requires forall c :: 0 <= c < average_row.Length ==> average_row[c] == ColumnSum(rs[gstart..rowi], c)
    modifies average_row
    ensures forall c :: 0 <= c < average_row.Length ==> average_row[c] == ColumnSum(rs[gstart..rowi + 1], c)
  {
    ghost var before := average_row[..];
    AccumulateRow(average_row, img_in, at);
    AccumulateStep(rs, gstart, rowi, before, average_row[..], average_row.Length);
  }

  /** A complete group is flushed: its mean row is written as output row g, and the
      accumulator starts the next group from zero. */
  method FlushGroup(average_row: array<real>, img_out: array<real>, out_at: nat, avglines: nat,
                    ghost rs: seq<seq<real>>, ghost g: nat, ghost spec: seq<real>, ghost orig: seq<real>)
    requires avglines > 0 && average_row != img_out && |orig| == img_out.Length
    requires out_at == Times(g, average_row.Length) && out_at + average_row.Length <= img_out.Length
    requires Times(g, avglines) + avglines <= |rs| && spec == Flatten(Averaged(rs, average_row.Length, avglines))
    requires forall c :: 0 <= c < average_row.Length ==>
               average_row[c] == ColumnSum(rs[Times(g, avglines)..Times(g, avglines) + avglines], c)
    requires img_out[..out_at] + Flatten(Averaged(rs[Times(g, avglines)..], average_row.Length, avglines)) == spec
    requires img_out[out_at..] == orig[out_at..]
    modifies average_row, img_out
    ensures img_out[..Times(g + 1, average_row.Length)]
            + Flatten(Averaged(rs[Times(g + 1, avglines)..], average_row.Length, avglines)) == spec
    ensures img_out[Times(g + 1, average_row.Length)..] == orig[Times(g + 1, average_row.Length)..]
    ensures forall c :: 0 <= c < average_row.Length ==> average_row[c] == 0.0
  {
    var cols := average_row.Length;
    ghost var gstart := Times(g, avglines);
    ghost var acc := average_row[..];
    ghost var written := img_out[..out_at];
    EmitRow(average_row, img_out, out_at, avglines, acc, written, orig);
    EmitStep(rs, gstart, cols, avglines, written, acc, seq(cols, c requires 0 <= c < cols => acc[c] / (avglines as real)));
  }

  /** With the group start at a multiple of avglines, (rowi+1) % avglines == 0 exactly
      when row rowi completes the group. */
  lemma GroupEnd(rowi: nat, avglines: nat, g: nat, gstart: nat)
    requires avglines > 0 && gstart == Times(g, avglines) && gstart <= rowi < gstart + avglines
    ensures (rowi + 1) % avglines == 0 <==> rowi + 1 == gstart + avglines
  {
    TimesIsProduct(g, avglines);
    MulSucc(g, avglines);
    if rowi + 1 == gstart + avglines {
      DivUnique(rowi + 1, avglines, g + 1, 0);
    } else {
      DivUnique(rowi + 1, avglines, g, rowi + 1 - gstart);
    }
  }

  /** One step of the accumulator: a group in progress gains a row. */
  lemma AccumulateStep(rs: seq<seq<real>>, gstart: nat, rowi: nat, before: seq<real>, after: seq<real>, cols: nat)
    requires gstart <= rowi < |rs| && |rs[rowi]| == cols && |before| == cols == |after|
    requires forall c :: 0 <= c < cols ==> before[c] == ColumnSum(rs[gstart..rowi], c)
    requires forall c :: 0 <= c < cols ==> after[c] == before[c] + rs[rowi][c]
    ensures forall c :: 0 <= c < cols ==> after[c] == ColumnSum(rs[gstart..rowi + 1], c)
  {
    assert rs[gstart..rowi + 1] == rs[gstart..rowi] + [rs[rowi]];
    forall c | 0 <= c < cols
      ensures after[c] == ColumnSum(rs[gstart..rowi + 1], c)
    {
      ColumnSumSnoc(rs[gstart..rowi], rs[rowi], c);
    }
  }

  /** The output written so far after the flush of the group starting at gstart. */
  lemma EmitStep(rs: seq<seq<real>>, gstart: nat, cols: nat, avglines: nat,
                 written: seq<real>, acc: seq<real>, row: seq<real>)
    requires avglines > 0 && gstart + avglines <= |rs| && |acc| == cols
    requires forall c :: 0 <= c < cols ==> acc[c] == ColumnSum(rs[gstart..gstart + avglines], c)
    requires row == seq(cols, c requires 0 <= c < cols => acc[c] / (avglines as real))
    requires written + Flatten(Averaged(rs[gstart..], cols, avglines)) == Flatten(Averaged(rs, cols, avglines))
    ensures (written + row) + Flatten(Averaged(rs[gstart + avglines..], cols, avglines))
            == Flatten(Averaged(rs, cols, avglines))
  {
    AveragedUnfold(rs, gstart, cols, avglines);
    assert row == MeanRow(rs[gstart..gstart + avglines], cols, avglines);
    var rest := Averaged(rs[gstart + avglines..], cols, avglines);
    assert Flatten([row] + rest) == row + Flatten(rest) by {
      assert ([row] + rest)[1..] == rest;
    }
  }

  /** The state of sq_average_lines after rows ..rowi-1 have been taken in and g output
      rows written: the accumulator holds the column sums of the group in progress, the
      output so far followed by the averages of the remaining rows is the whole answer,
      and the output past row g is untouched. */
  ghost predicate Progress(acc: seq<real>, out: seq<real>, rs: seq<seq<real>>, cols: nat, avglines: nat,
                           rowi: nat, g: nat, spec: seq<real>, orig: seq<real>)
    requires avglines > 0
  {
    && |acc| == cols && |out| == |orig| && rowi <= |rs|
    && Times(g, avglines) <= rowi < Times(g, avglines) + avglines
    && Times(g, cols) <= |out|
    && (forall c :: 0 <= c < cols ==> acc[c] == ColumnSum(rs[Times(g, avglines)..rowi], c))
    && out[..Times(g, cols)] + Flatten(Averaged(rs[Times(g, avglines)..], cols, avglines)) == spec
    && out[Times(g, cols)..] == orig[Times(g, cols)..]
  }

  /** One turn of the outer loop of sq_average_lines: row rowi is added to the group, and a
      group it completes is flushed as output row rowi_out. */
  method AverageStep(img_in: array<real>, rows: nat, cols: nat, img_out: array<real>, avglines: nat,
                     average_row: array<real>, rowi: nat, rowi_out: nat,
                     ghost rs: seq<seq<real>>, ghost spec: seq<real>, ghost orig: seq<real>)
    returns (rowi_out': nat)
    requires avglines >= 1 && img_in != img_out && average_row != img_in && average_row != img_out
    requires average_row.Length == cols && rowi < rows
    requires rows * cols <= img_in.Length && (rows / avglines) * cols <= img_out.Length
    requires rs == RowsOf(img_in[..], cols, rows) && spec == Flatten(Averaged(rs, cols, avglines))
    requires Progress(average_row[..], img_out[..], rs, cols, avglines, rowi, rowi_out, spec, orig)
    modifies average_row, img_out
    ensures Progress(average_row[..], img_out[..], rs, cols, avglines, rowi + 1, rowi_out', spec, orig)
  {
    ghost var gstart := Times(rowi_out, avglines);
    var at := cols * rowi;
    RowOffset(img_in[..], cols, rows, rowi, at);
    AddRowToGroup(average_row, img_in, at, rs, gstart, rowi);
    rowi_out' := FlushIfComplete(rows, cols, img_out, avglines, average_row, rowi, rowi_out, rs, spec, orig);
  }

  /** The end of a turn of sq_average_lines' outer loop, once row rowi is in the group:
      if the group is complete it is flushed as output row rowi_out. */
  method FlushIfComplete(rows: nat, cols: nat, img_out: array<real>, avglines: nat,
                         average_row: array<real>, rowi: nat, rowi_out: nat,
                         ghost rs: seq<seq<real>>, ghost spec: seq<real>, ghost orig: seq<real>)
    returns (rowi_out': nat)
    requires avglines >= 1 && average_row != img_out && average_row.Length == cols
    requires rowi < rows == |rs| && (rows / avglines) * cols <= img_out.Length
    requires spec == Flatten(Averaged(rs, cols, avglines)) && |orig| == img_out.Length
    requires Times(rowi_out, avglines) <= rowi < Times(rowi_out, avglines) + avglines
    requires Times(rowi_out, cols) <= img_out.Length
    requires forall c :: 0 <= c < cols ==> average_row[c] == ColumnSum(rs[Times(rowi_out, avglines)..rowi + 1], c)
    requires img_out[..Times(rowi_out, cols)] + Flatten(Averaged(rs[Times(rowi_out, avglines)..], cols, avglines)) == spec
    requires img_out[Times(rowi_out, cols)..] == orig[Times(rowi_out, cols)..]
    modifies average_row, img_out
    ensures Progress(average_row[..], img_out[..], rs, cols, avglines, rowi + 1, rowi_out', spec, orig)
  {
    ghost var gstart := Times(rowi_out, avglines);
    GroupEnd(rowi, avglines, rowi_out, gstart);
    rowi_out' := rowi_out;
    if (rowi + 1) % avglines == 0 {
      var out_at := cols * rowi_out;
      OutputFits(rows, avglines, rowi_out, cols, gstart);
      TimesIsProduct(rowi_out, cols);
      FlushGroup(average_row, img_out, out_at, avglines, rs, rowi_out, spec, orig);
      rowi_out' := rowi_out + 1;
    }
  }

  /** sq_average_lines (avglines >= 1): every complete group of avglines input rows
      becomes one output row holding the column means of the group; a trailing partial
      group is dropped. */
  method AverageLines(img_in: array<real>, rows: nat, cols: nat, img_out: array<real>, avglines: nat)
    requires avglines >= 1 && img_in != img_out
    requires rows * cols <= img_in.Length && (rows / avglines) * cols <= img_out.Length
    modifies img_out
    ensures (rows / avglines) * cols == |Flatten(Averaged(RowsOf(img_in[..], cols, rows), cols, avglines))|
    ensures img_out[..(rows / avglines) * cols] == Flatten(Averaged(RowsOf(img_in[..], cols, rows), cols, avglines))
    ensures img_out[(rows / avglines) * cols..] == old(img_out[(rows / avglines) * cols..])
  {
    ghost var rs := RowsOf(img_in[..], cols, rows);
    ghost var spec := Flatten(Averaged(rs, cols, avglines));
    ghost var orig := img_out[..];
    var average_row := new real[cols](_ => 0.0);
    var rowi: nat := 0;
    var rowi_out: nat := 0;
    while rowi < rows
      invariant rowi <= rows
      invariant Progress(average_row[..], img_out[..], rs, cols, avglines, rowi, rowi_out, spec, orig)
      decreases rows - rowi
    {
      rowi_out := AverageStep(img_in, rows, cols, img_out, avglines, average_row, rowi, rowi_out, rs, spec, orig);
      rowi := rowi + 1;
    }
    assert rowi == rows == |rs|;
    AverageDone(average_row[..], rs, cols, avglines, rowi_out, img_out[..], spec, orig);
    ghost var n := (rows / avglines) * cols;
    assert img_out[..n] == img_out[..][..n] && img_out[n..] == img_out[..][n..];
    assert old(img_out[n..]) == orig[n..];
  }

  /** At the end of the rows, the remaining rows form no complete group: the output written
      is the whole answer. */
  lemma AverageDone(acc: seq<real>, rs: seq<seq<real>>, cols: nat, avglines: nat, g: nat,
                    out: seq<real>, spec: seq<real>, orig: seq<real>)
    requires avglines > 0 && spec == Flatten(Averaged(rs, cols, avglines))
    requires Progress(acc, out, rs, cols, avglines, |rs|, g, spec, orig)
    ensures (|rs| / avglines) * cols == |spec| <= |out|
    ensures out[..(|rs| / avglines) * cols] == spec
    ensures out[(|rs| / avglines) * cols..] == orig[(|rs| / avglines) * cols..]
  {
    FramesShort(rs, Times(g, avglines), avglines);
    OutputLength(rs, cols, avglines);
  }

  /** A group that completes inside the raster has room in the output. */
  lemma OutputFits(rows: nat, avglines: nat, g: nat, cols: nat, gstart: nat)
    requires avglines > 0 && gstart == Times(g, avglines) && gstart + avglines <= rows
    ensures Times(g + 1, cols) <= (rows / avglines) * cols
  {
    TimesIsProduct(g + 1, avglines);
    TimesIsProduct(g + 1, cols);
    DivAtLeast(rows, avglines, g + 1);
    MulLe(g + 1, rows / avglines, cols);
  }

  lemma OutputLength(rs: seq<seq<real>>, cols: nat, avglines: nat)
    requires avglines > 0
    ensures |Flatten(Averaged(rs, cols, avglines))| == (|rs| / avglines) * cols
  {
    FlattenLength(Averaged(rs, cols, avglines), cols);
  }

  lemma {:induction false} FlattenLength(fs: seq<seq<real>>, n: nat)
    requires forall j :: 0 <= j < |fs| ==> |fs[j]| == n
    ensures |Flatten(fs)| == |fs| * n
    decreases |fs|
  {
    if fs != [] {
      FlattenLength(fs[1..], n);
    }
  }

  // ---------------------------------------------------------------------------------
  // sq_imchop
  // ---------------------------------------------------------------------------------

  /** The first index kept along an axis of n pixels when `fraction` of it is chopped
      from each end: the float product truncated to unsigned. */
  function ChopFirst(n: nat, fraction: real): (first: nat)
    requires 0.0 <= fraction <= 1.0
    ensures first <= n
  {
    ((n as real) * fraction).Floor
  }

  /** One past the last index kept. */
  function ChopLast(n: nat, fraction: real): (last: nat)
    requires 0.0 <= fraction <= 1.0
    ensures last <= n
  {
    ((n as real) * (1.0 - fraction)).Floor
  }

  /** The number of indices the copy loop visits. */
  function Span(first: nat, last: nat): nat
  {
    if first <= last then last - first else 0
  }

  /** Chopping at most half from each end keeps the middle: first <= last, and the kept
      span is n minus twice the chopped part, up to truncation. */
  lemma ChopKeepsMiddle(n: nat, fraction: real)
    requires 0.0 <= fraction <= 0.5
    ensures ChopFirst(n, fraction) <= ChopLast(n, fraction)
    ensures Span(ChopFirst(n, fraction), ChopLast(n, fraction)) as real <= (n as real) * (1.0 - 2.0 * fraction) + 1.0
  {
    var x, y := (n as real) * fraction, (n as real) * (1.0 - fraction);
    var d := (n as real) * (1.0 - 2.0 * fraction);
    assert y - x == d;
    assert 0.0 <= d by {
      RealMulNonNegative(n as real, 1.0 - 2.0 * fraction);
    }
    assert x.Floor as real <= x <= y < y.Floor as real + 1.0;
  }

  lemma RealMulNonNegative(a: real, b: real)
    requires 0.0 <= a && 0.0 <= b
    ensures 0.0 <= a * b
  {
  }

  /** The kept rectangle as rows: nr rows starting at row rf, each nc pixels starting
      at column cf. Row r of the raster starts at float Times(r, cols) = r*cols. */
  function SubRect(x: seq<real>, cols: nat, rf: nat, nr: nat, cf: nat, nc: nat): (s: seq<seq<real>>)
    requires cf + nc <= cols && Times(rf + nr, cols) <= |x|
    ensures |s| == nr && forall i :: 0 <= i < nr ==> |s[i]| == nc
    decreases nr
  {
    if nr == 0 then []
    else SubRect(x, cols, rf, nr - 1, cf, nc) + [x[Times(rf + nr - 1, cols) + cf..Times(rf + nr - 1, cols) + cf + nc]]
  }

  lemma {:induction false} TimesMono(a: nat, b: nat, n: nat)
    requires a <= b
    ensures Times(a, n) <= Times(b, n)
    decreases b
  {
    if a < b {
      TimesMono(a, b - 1, n);
    }
  }

  /** The copy of one kept row: the output written so far grows by the row's pixels
      [col_first, col_last), and the rest of img_out is as it was. */
  method ChopRow(img_in: array<real>, img_out: array<real>, in_at: nat, out_at: nat, col_first: nat, col_last: nat,
                 ghost done: seq<real>, ghost orig: seq<real>)
    requires col_first <= col_last && in_at + col_last <= img_in.Length
    requires out_at + (col_last - col_first) <= img_out.Length && img_in != img_out && |orig| == img_out.Length
    requires img_out[..out_at] == done && img_out[out_at..] == orig[out_at..]
    modifies img_out
    ensures img_out[..out_at + (col_last - col_first)] == done + img_in[in_at + col_first..in_at + col_last]
    ensures img_out[out_at + (col_last - col_first)..] == orig[out_at + (col_last - col_first)..]
  {
    var coli := col_first;
    while coli < col_last
      invariant col_first <= coli <= col_last
      invariant img_out[..out_at + (coli - col_first)] == done + img_in[in_at + col_first..in_at + coli]
      invariant img_out[out_at + (coli - col_first)..] == orig[out_at + (coli - col_first)..]
    {
      img_out[out_at + (coli - col_first)] := img_in[in_at + coli];
      coli := coli + 1;
      assert img_out[..out_at + (coli - col_first)]
             == img_out[..out_at + (coli - 1 - col_first)] + [img_out[out_at + (coli - 1 - col_first)]];
      assert img_in[in_at + col_first..in_at + coli]
             == img_in[in_at + col_first..in_at + coli - 1] + [img_in[in_at + coli - 1]];
    }
  }

  /** The size of the chopped image. */
  function ChopSize(rows: nat, cols: nat, width_chop_fraction: real, height_chop_fraction: real): nat
    requires 0.0 <= width_chop_fraction <= 1.0 && 0.0 <= height_chop_fraction <= 1.0
  {
    Span(ChopFirst(rows, height_chop_fraction), ChopLast(rows, height_chop_fraction))
    * Span(ChopFirst(cols, width_chop_fraction), ChopLast(cols, width_chop_fraction))
  }

  /** The kept rectangle of sq_imchop. */
  function Chopped(x: seq<real>, rows: nat, cols: nat, width_chop_fraction: real, height_chop_fraction: real): seq<seq<real>>
    requires 0.0 <= width_chop_fraction <= 1.0 && 0.0 <= height_chop_fraction <= 1.0
    requires rows * cols <= |x|
  {
    var rf, rl := ChopFirst(rows, height_chop_fraction), ChopLast(rows, height_chop_fraction);
    var cf, cl := ChopFirst(cols, width_chop_fraction), ChopLast(cols, width_chop_fraction);
    TimesIsProduct(rows, cols);
    TimesMono(rf + Span(rf, rl), rows, cols);
    SubRect(x, cols, rf, Span(rf, rl), cf, Span(cf, cl))
  }

  /** sq_imchop: the pixels of rows [row_first, row_last) and columns
      [col_first, col_last) are copied, row by row, to the front of img_out. */
  method ImChop(img_in: array<real>, img_out: array<real>, rows: nat, cols: nat,
                width_chop_fraction: real, height_chop_fraction: real)
    requires 0.0 <= width_chop_fraction <= 1.0 && 0.0 <= height_chop_fraction <= 1.0
    requires rows * cols <= img_in.Length && img_in != img_out
    requires ChopSize(rows, cols, width_chop_fraction, height_chop_fraction) <= img_out.Length
    modifies img_out
    ensures ChopSize(rows, cols, width_chop_fraction, height_chop_fraction)
            == |Flatten(Chopped(img_in[..], rows, cols, width_chop_fraction, height_chop_fraction))|
    ensures img_out[..ChopSize(rows, cols, width_chop_fraction, height_chop_fraction)]
            == Flatten(Chopped(img_in[..], rows, cols, width_chop_fraction, height_chop_fraction))
    ensures img_out[ChopSize(rows, cols, width_chop_fraction, height_chop_fraction)..]
            == old(img_out[ChopSize(rows, cols, width_chop_fraction, height_chop_fraction)..])
  {
    var col_first := ChopFirst(cols, width_chop_fraction);
    var col_last := ChopLast(cols, width_chop_fraction);
    var row_first := ChopFirst(rows, height_chop_fraction);
    var row_last := ChopLast(rows, height_chop_fraction);
    var nc := Span(col_first, col_last);
    var nr := Span(row_first, row_last);
    ghost var x := img_in[..];
    ghost var orig := img_out[..];
    TimesIsProduct(rows, cols);
    TimesMono(row_first + nr, rows, cols);
    TimesMono(row_first, row_first + nr, cols);
    TimesIsProduct(nr, nc);
    ChopRows(img_in, img_out, x, cols, row_first, row_last, col_first, col_last, nr, nc, orig);
    ghost var n := Times(nr, nc);
    assert n == ChopSize(rows, cols, width_chop_fraction, height_chop_fraction);
    assert Flatten(SubRect(x, cols, row_first, nr, col_first, nc))
           == Flatten(Chopped(x, rows, cols, width_chop_fraction, height_chop_fraction));
    assert old(img_out[n..]) == orig[n..];
  }

  /** The row loop of sq_imchop: rows [rf, rl) of the kept rectangle are copied one
      after the other to the front of img_out. */
  method ChopRows(img_in: array<real>, img_out: array<real>, ghost x: seq<real>, cols: nat, rf: nat, rl: nat,
                  cf: nat, cl: nat, nr: nat, nc: nat, ghost orig: seq<real>)
    requires img_in != img_out && x == img_in[..] && orig == img_out[..]
    requires nr == Span(rf, rl) && nc == Span(cf, cl) && cf + nc <= cols
    requires Times(rf + nr, cols) <= |x| && Times(rf, cols) <= |x| && Times(nr, nc) <= img_out.Length
    modifies img_out
    ensures Times(nr, nc) == |Flatten(SubRect(x, cols, rf, nr, cf, nc))|
    ensures img_out[..Times(nr, nc)] == Flatten(SubRect(x, cols, rf, nr, cf, nc))
    ensures img_out[Times(nr, nc)..] == orig[Times(nr, nc)..]
  {
    var rowi := rf;
    while rowi < rl
      invariant rf <= rowi <= rf + nr
      invariant Times(rowi - rf, nc) <= img_out.Length && Times(rowi, cols) <= |x|
      invariant img_out[..Times(rowi - rf, nc)] == Flatten(SubRect(x, cols, rf, rowi - rf, cf, nc))
      invariant img_out[Times(rowi - rf, nc)..] == orig[Times(rowi - rf, nc)..]
    {
      ChopStep(img_in, img_out, x, cols, rf, rowi, cf, cl, nr, nc, orig);
      rowi := rowi + 1;
    }
    ChopDone(x, cols, rf, rowi, rl, cf, nr, nc);
  }

  /** One row of sq_imchop: row rowi's kept pixels are copied to output row rowi - row_first. */
  method ChopStep(img_in: array<real>, img_out: array<real>, ghost x: seq<real>, cols: nat, rf: nat, rowi: nat,
                  cf: nat, cl: nat, nr: nat, nc: nat, ghost orig: seq<real>)
    requires img_in != img_out && x == img_in[..] && |orig| == img_out.Length
    requires nc == Span(cf, cl) && cf + nc <= cols && rf <= rowi < rf + nr && Times(rf + nr, cols) <= |x|
    requires Times(nr, nc) <= img_out.Length && Times(rowi - rf, nc) <= img_out.Length && Times(rowi, cols) <= |x|
    requires img_out[..Times(rowi - rf, nc)] == Flatten(SubRect(x, cols, rf, rowi - rf, cf, nc))
    requires img_out[Times(rowi - rf, nc)..] == orig[Times(rowi - rf, nc)..]
    modifies img_out
    ensures Times(rowi + 1 - rf, nc) <= img_out.Length && Times(rowi + 1, cols) <= |x|
    ensures img_out[..Times(rowi + 1 - rf, nc)] == Flatten(SubRect(x, cols, rf, rowi + 1 - rf, cf, nc))
    ensures img_out[Times(rowi + 1 - rf, nc)..] == orig[Times(rowi + 1 - rf, nc)..]
  {
    var in_at := RowStart(rowi, cols);
    var out_at := RowStart(rowi - rf, nc);
    ChopRowStep(x, cols, rf, rowi, cf, cl, nr, nc, in_at, out_at);
    ChopGrow(x, cols, rf, rowi, cf, nc, in_at);
    if cf < cl {
      ChopRow(img_in, img_out, in_at, out_at, cf, cl, img_out[..out_at], orig);
    }
  }

  /** The flattened rectangle grows by row rowi's kept pixels. */
  lemma ChopGrow(x: seq<real>, cols: nat, rf: nat, rowi: nat, cf: nat, nc: nat, in_at: nat)
    requires cf + nc <= cols && rf <= rowi && in_at == Times(rowi, cols) && in_at + cols <= |x|
    ensures Flatten(SubRect(x, cols, rf, rowi + 1 - rf, cf, nc))
            == Flatten(SubRect(x, cols, rf, rowi - rf, cf, nc)) + x[in_at + cf..in_at + cf + nc]
  {
    assert rf + (rowi + 1 - rf) - 1 == rowi;
    FlattenAppend(SubRect(x, cols, rf, rowi - rf, cf, nc), x[in_at + cf..in_at + cf + nc]);
  }

  /** The bookkeeping of one row of sq_imchop: the row fits on both sides, and the
      rectangle grows by it. */
  lemma ChopRowStep(x: seq<real>, cols: nat, rf: nat, rowi: nat, cf: nat, cl: nat, nr: nat, nc: nat,
                    in_at: nat, out_at: nat)
    requires nc == Span(cf, cl) && cf + nc <= cols && rf <= rowi < rf + nr && Times(rf + nr, cols) <= |x|
    requires in_at == Times(rowi, cols) && out_at == Times(rowi - rf, nc)
    ensures in_at + cols == Times(rowi + 1, cols) <= |x| && out_at + nc <= Times(nr, nc) && (cf < cl ==> cl - cf == nc)
    ensures out_at + nc == Times(rowi + 1 - rf, nc)
  {
    TimesMono(rowi + 1, rf + nr, cols);
    TimesMono(rowi + 1 - rf, nr, nc);
  }

  /** When the row loop stops, all nr kept rows have been written: nr*nc pixels. */
  lemma ChopDone(x: seq<real>, cols: nat, rf: nat, rowi: nat, rl: nat, cf: nat, nr: nat, nc: nat)
    requires nr == Span(rf, rl) && rf <= rowi <= rf + nr && !(rowi < rl)
    requires cf + nc <= cols && Times(rf + nr, cols) <= |x|
    ensures rowi - rf == nr && Times(nr, nc) == nr * nc == |Flatten(SubRect(x, cols, rf, nr, cf, nc))|
  {
    TimesIsProduct(nr, nc);
    FlattenLength(SubRect(x, cols, rf, nr, cf, nc), nc);
  }

  /** Flattened rows of n values: value j of row i sits at i*n + j. */
  lemma {:induction false} FlattenAt(fs: seq<seq<real>>, n: nat, i: nat, j: nat)
    requires (forall k :: 0 <= k < |fs| ==> |fs[k]| == n) && i < |fs| && j < n
    ensures Times(i, n) + j < |Flatten(fs)| && Flatten(fs)[Times(i, n) + j] == fs[i][j]
    decreases i
  {
    if i > 0 {
      FlattenAt(fs[1..], n, i - 1, j);
      assert Flatten(fs) == fs[0] + Flatten(fs[1..]);
    }
  }

  /** Pixel (rf + i, cf + j) of the source, at cols*(rf + i) + cf + j, lands at
      col_count*i + j of the output, the index sq_imchop writes it to (Times(k, n) is k*n,
      by TimesIsProduct). */
  lemma ChopAt(x: seq<real>, cols: nat, rf: nat, nr: nat, cf: nat, nc: nat, i: nat, j: nat)
    requires cf + nc <= cols && Times(rf + nr, cols) <= |x| && i < nr && j < nc
    ensures Times(i, nc) + j < |Flatten(SubRect(x, cols, rf, nr, cf, nc))|
    ensures Times(rf + i, cols) + cf + j < |x|
    ensures Flatten(SubRect(x, cols, rf, nr, cf, nc))[Times(i, nc) + j] == x[Times(rf + i, cols) + cf + j]
  {
    FlattenAt(SubRect(x, cols, rf, nr, cf, nc), nc, i, j);
    SubRectAt(x, cols, rf, nr, cf, nc, i);
  }

  lemma {:induction false} SubRectAt(x: seq<real>, cols: nat, rf: nat, nr: nat, cf: nat, nc: nat, i: nat)
    requires cf + nc <= cols && Times(rf + nr, cols) <= |x| && i < nr
    ensures Times(rf + i, cols) + cf + nc <= |x|
    ensures SubRect(x, cols, rf, nr, cf, nc)[i] == x[Times(rf + i, cols) + cf..Times(rf + i, cols) + cf + nc]
    decreases nr
  {
    if i < nr - 1 {
      TimesMono(rf + nr - 1, rf + nr, cols);
      SubRectAt(x, cols, rf, nr - 1, cf, nc, i);
    }
  }

  // ---------------------------------------------------------------------------------
  // sq_linear_scale and sq_no_scale
  // ---------------------------------------------------------------------------------

  /** The smallest value, as the scan keeps it (first value, then any strictly smaller). */
  function SeqMin(xs: seq<real>): (m: real)
    requires |xs| > 0
    ensures m in xs && forall i :: 0 <= i < |xs| ==> m <= xs[i]
  {
    if |xs| == 1 then xs[0]
    else
      var m := SeqMin(xs[..|xs| - 1]);
      assert forall i :: 0 <= i < |xs| - 1 ==> xs[..|xs| - 1][i] == xs[i];
      if xs[|xs| - 1] < m then xs[|xs| - 1] else m
  }

  /** The largest value, as the scan keeps it. */
  function SeqMax(xs: seq<real>): (m: real)
    requires |xs| > 0
    ensures m in xs && forall i :: 0 <= i < |xs| ==> xs[i] <= m
  {
    if |xs| == 1 then xs[0]
    else
      var m := SeqMax(xs[..|xs| - 1]);
      assert forall i :: 0 <= i < |xs| - 1 ==> xs[..|xs| - 1][i] == xs[i];
      if xs[|xs| - 1] > m then xs[|xs| - 1] else m
  }

  /** An image whose values are not all equal; sq_linear_scale divides by max - min. */
  predicate Scalable(xs: seq<real>)
  {
    xs == [] || SeqMin(xs) < SeqMax(xs)
  }

  /** One value after sq_linear_scale: shifted by min, then stretched by 255/(max-min). */
  function ScaleValue(v: real, min: real, max: real): (r: real)
    requires min < max
    ensures v == min ==> r == 0.0
    ensures v == max ==> r == MAX_PIXEL_VAL as real
  {
    ScaleSigns(v, min, max);
    (v - min) * ((MAX_PIXEL_VAL as real) / (max - min))
  }

  lemma ScaleSigns(v: real, min: real, max: real)
    requires min < max
    ensures v == min ==> (v - min) * ((MAX_PIXEL_VAL as real) / (max - min)) == 0.0
    ensures v == max ==> (v - min) * ((MAX_PIXEL_VAL as real) / (max - min)) == MAX_PIXEL_VAL as real
  {
    var k := (MAX_PIXEL_VAL as real) / (max - min);
    assert k * (max - min) == MAX_PIXEL_VAL as real;
    if v == max {
      assert (v - min) * k == k * (max - min);
    }
    if v == min {
      assert (v - min) * k == 0.0 * k;
    }
  }

  function LinearScaled(xs: seq<real>): (ys: seq<real>)
    requires Scalable(xs)
    ensures |ys| == |xs|
  {
    if xs == [] then []
    else seq(|xs|, i requires 0 <= i < |xs| => ScaleValue(xs[i], SeqMin(xs), SeqMax(xs)))
  }

  /** The min/max scan of sq_linear_scale; both start at img_buf[0]. */
  method MinMax(img_buf: array<real>, n: nat) returns (min: real, max: real)
    requires 0 < img_buf.Length && n <= img_buf.Length
    ensures n > 0 ==> min == SeqMin(img_buf[..n]) && max == SeqMax(img_buf[..n])
  {
    min, max := img_buf[0], img_buf[0];
    var imgi := 0;
    while imgi < n
      invariant 0 <= imgi <= n
      invariant imgi > 0 ==> min == SeqMin(img_buf[..imgi]) && max == SeqMax(img_buf[..imgi])
      invariant imgi == 0 ==> min == img_buf[0] && max == img_buf[0]
    {
      assert img_buf[..imgi + 1][..imgi] == img_buf[..imgi];
      if img_buf[imgi] < min {
        min := img_buf[imgi];
      }
      if img_buf[imgi] > max {
        max := img_buf[imgi];
      }
      imgi := imgi + 1;
    }
  }

  /** sq_linear_scale on the first rows*cols values of the buffer. */
  method LinearScale(img_buf: array<real>, rows: nat, cols: nat)
    requires 0 < img_buf.Length && rows * cols <= img_buf.Length
    requires Scalable(img_buf[..rows * cols])
    modifies img_buf
    ensures img_buf[..rows * cols] == LinearScaled(old(img_buf[..rows * cols]))
    ensures img_buf[rows * cols..] == old(img_buf[rows * cols..])
  {
    var n := rows * cols;
    ghost var orig := img_buf[..];
    var min, max := MinMax(img_buf, n);
    if n > 0 {
      ScaleAll(img_buf, n, min, max, orig);
      ScaledAll(orig[..n], img_buf[..n], min, max);
    }
    assert orig[..n] == old(img_buf[..n]);
  }

  /** The second loop of sq_linear_scale: each of the first n values is scaled. */
  method ScaleAll(img_buf: array<real>, n: nat, min: real, max: real, ghost orig: seq<real>)
    requires n <= img_buf.Length && min < max && orig == img_buf[..]
    modifies img_buf
    ensures forall i :: 0 <= i < n ==> img_buf[i] == ScaleValue(orig[i], min, max)
    ensures img_buf[n..] == orig[n..]
  {
    var imgi := 0;
    while imgi < n
      invariant 0 <= imgi <= n
      invariant forall i :: 0 <= i < imgi ==> img_buf[i] == ScaleValue(orig[i], min, max)
      invariant forall i :: imgi <= i < img_buf.Length ==> img_buf[i] == orig[i]
    {
      // Shift by the minimum, then stretch the range onto the grey levels.
      img_buf[imgi] := ScaleValue(img_buf[imgi], min, max);
      imgi := imgi + 1;
    }
  }

  lemma ScaledAll(xs: seq<real>, ys: seq<real>, min: real, max: real)
    requires |xs| == |ys| > 0 && min == SeqMin(xs) && max == SeqMax(xs) && Scalable(xs)
    requires forall i :: 0 <= i < |ys| ==> ys[i] == ScaleValue(xs[i], min, max)
    ensures ys == LinearScaled(xs)
  {
  }

  /** The scaling of one value: [min, max] is mapped onto [0, 255], min to 0 and max
      to 255. */
  lemma ScaleValueRange(v: real, lo: real, hi: real)
    requires lo < hi && lo <= v <= hi
    ensures 0.0 <= ScaleValue(v, lo, hi) <= MAX_PIXEL_VAL as real
    ensures ScaleValue(lo, lo, hi) == 0.0 && ScaleValue(hi, lo, hi) == MAX_PIXEL_VAL as real
  {
    var k := (MAX_PIXEL_VAL as real) / (hi - lo);
    assert k * (hi - lo) == MAX_PIXEL_VAL as real;
    MulMonotone(0.0, v - lo, k);
    MulMonotone(v - lo, hi - lo, k);
  }

  /** The scaling of one value is strictly increasing. */
  lemma ScaleValueMonotone(u: real, v: real, lo: real, hi: real)
    requires lo < hi
    ensures u <= v <==> ScaleValue(u, lo, hi) <= ScaleValue(v, lo, hi)
  {
    var k := (MAX_PIXEL_VAL as real) / (hi - lo);
    assert ScaleValue(u, lo, hi) == (u - lo) * k && ScaleValue(v, lo, hi) == (v - lo) * k;
    MulStrict(u - lo, v - lo, k);
  }

  /** Multiplying by a positive factor keeps the order of two values, in both directions. */
  lemma MulStrict(a: real, b: real, k: real)
    requires k > 0.0
    ensures a <= b <==> a * k <= b * k
  {
    if a <= b {
      MulMonotone(a, b, k);
    } else {
      assert a * k - b * k == (a - b) * k;
      assert (a - b) * k > 0.0;
    }
  }

  lemma MulMonotone(a: real, b: real, k: real)
    requires a <= b && k >= 0.0
    ensures a * k <= b * k
  {
  }

  /** After linear scaling every value lies in [0, 255]; the smallest maps to 0 and
      the largest to 255. */
  lemma LinearScaleRange(xs: seq<real>, i: nat)
    requires |xs| > 0 && Scalable(xs) && i < |xs|
    ensures 0.0 <= LinearScaled(xs)[i] <= MAX_PIXEL_VAL as real
    ensures xs[i] == SeqMin(xs) ==> LinearScaled(xs)[i] == 0.0
    ensures xs[i] == SeqMax(xs) ==> LinearScaled(xs)[i] == MAX_PIXEL_VAL as real
  {
    ScaleValueRange(xs[i], SeqMin(xs), SeqMax(xs));
  }

  /** Linear scaling keeps the order of values, in both directions. */
  lemma LinearScaleMonotone(xs: seq<real>, i: nat, j: nat)
    requires |xs| > 0 && Scalable(xs) && i < |xs| && j < |xs|
    ensures xs[i] <= xs[j] <==> LinearScaled(xs)[i] <= LinearScaled(xs)[j]
  {
    ScaleValueMonotone(xs[i], xs[j], SeqMin(xs), SeqMax(xs));
  }

  /** sq_no_scale: the buffer is left as it is. */
  method NoScale(img_buf: array<real>, rows: int, cols: int)
    ensures img_buf[..] == old(img_buf[..])
  {
  }

  // ---------------------------------------------------------------------------------
  // sq_write_pnm
  // ---------------------------------------------------------------------------------

  newtype byte = x: int | 0 <= x < 256

  /** The byte of one pixel: clamped to [0, 255], then truncated by the cast to
      unsigned char. */
  function PixelByte(v: real): (b: byte)
    ensures v < 1.0 ==> b == 0
    ensures v >= MAX_PIXEL_VAL as real ==> b == 255
    ensures 0.0 <= v < (MAX_PIXEL_VAL + 1) as real ==> b as int == v.Floor
  {
    var c := if v < 0.0 then 0.0 else if v > MAX_PIXEL_VAL as real then MAX_PIXEL_VAL as real else v;
    c.Floor as byte
  }

  /** Clamping and truncation: values below 0 give 0, values above 255 give 255, and
      a value in between gives its integer part. */
  lemma PixelByteIsClampedFloor(v: real)
    ensures v <= 0.0 ==> PixelByte(v) == 0
    ensures v >= MAX_PIXEL_VAL as real ==> PixelByte(v) == 255
    ensures 0.0 <= v <= MAX_PIXEL_VAL as real ==> (PixelByte(v) as real) <= v < (PixelByte(v) as real) + 1.0
  {
  }

  /** Brighter values never give darker pixels. */
  lemma PixelByteMonotone(u: real, v: real)
    requires u <= v
    ensures PixelByte(u) <= PixelByte(v)
  {
  }

  /** A grey level that is already a whole number in [0, 255] is written unchanged. */
  lemma PixelByteWhole(k: byte)
    ensures PixelByte(k as real) == k
  {
  }

  function Digit(d: nat): (c: char)
    requires d < 10
    ensures '0' <= c <= '9'
  {
    ['0', '1', '2', '3', '4', '5', '6', '7', '8', '9'][d]
  }

  /** The text `%u` prints for n: decimal, no leading zeros. */
  function Decimal(n: nat): (s: string)
    ensures |s| > 0 && forall i :: 0 <= i < |s| ==> '0' <= s[i] <= '9'
    decreases n
  {
    if n < 10 then [Digit(n)] else Decimal(n / 10) + [Digit(n % 10)]
  }

  /** The value of a string of decimal digits. */
  function DecimalValue(s: string): nat
    requires forall i :: 0 <= i < |s| ==> '0' <= s[i] <= '9'
  {
    if s == [] then 0 else DecimalValue(s[..|s| - 1]) * 10 + (s[|s| - 1] as int - '0' as int)
  }

  lemma DigitValue(d: nat)
    requires d < 10
    ensures Digit(d) as int - '0' as int == d
  {
  }

  /** Reading the printed number back gives the number. */
  lemma {:induction false} DecimalRoundTrip(n: nat)
    ensures DecimalValue(Decimal(n)) == n
    decreases n
  {
    if n < 10 {
      DigitValue(n);
      assert Decimal(n)[..0] == [];
    } else {
      DecimalRoundTrip(n / 10);
      DigitValue(n % 10);
      assert Decimal(n)[..|Decimal(n)| - 1] == Decimal(n / 10);
    }
  }

  /** No leading zero, except for the number 0 itself. */
  lemma {:induction false} DecimalNoLeadingZero(n: nat)
    ensures Decimal(n)[0] == '0' <==> n == 0
    decreases n
  {
    if n >= 10 {
      DecimalNoLeadingZero(n / 10);
    }
  }

  /** Text written with fprintf, one byte per character. */
  function Ascii(s: string): (b: seq<byte>)
    requires forall i :: 0 <= i < |s| ==> s[i] as int < 256
    ensures |b| == |s|
  {
    seq(|s|, i requires 0 <= i < |s| => s[i] as int as byte)
  }

  /** Bytes of the header: "P5", space 32, newline 10. */
  const MAGIC: seq<byte> := [80, 53, 10]
  const SP: byte := 32
  const NL: byte := 10

  /** The header fprintf writes: "P5\n", then "%u %u\n" with width and height, then
      "%u\n" with the maximum grey level. */
  function PnmHeader(cols: nat, rows: nat): (h: seq<byte>)
    ensures |h| == |MAGIC| + |Decimal(cols)| + 1 + |Decimal(rows)| + 1 + |Decimal(MAX_PIXEL_VAL)| + 1
    ensures h[..|MAGIC|] == MAGIC && h[|h| - 1] == NL
    ensures h[|MAGIC| + |Decimal(cols)|] == SP
  {
    MAGIC + Ascii(Decimal(cols)) + [SP] + Ascii(Decimal(rows)) + [NL] + Ascii(Decimal(MAX_PIXEL_VAL)) + [NL]
  }

  function Pixels(xs: seq<real>): (b: seq<byte>)
    ensures |b| == |xs| && forall i :: 0 <= i < |xs| ==> b[i] == PixelByte(xs[i])
  {
    seq(|xs|, i requires 0 <= i < |xs| => PixelByte(xs[i]))
  }

  /** sq_write_pnm: the header, then one byte per pixel in raster order. */
  method WritePnm(img_buf: array<real>, rows: nat, cols: nat) returns (out: seq<byte>)
    requires rows * cols <= img_buf.Length
    ensures out == PnmHeader(cols, rows) + Pixels(img_buf[..rows * cols])
  {
    var header := PnmHeader(cols, rows);
    out := header;
    var imgi := 0;
    while imgi < rows * cols
      invariant 0 <= imgi <= rows * cols
      invariant out == header + Pixels(img_buf[..imgi])
    {
      var imgvalf := img_buf[imgi];
      if imgvalf < 0.0 {
        imgvalf := 0.0;
      }
      if imgvalf > MAX_PIXEL_VAL as real {
        imgvalf := MAX_PIXEL_VAL as real;
      }
      var imgvalb := imgvalf.Floor as byte;
      assert Pixels(img_buf[..imgi + 1]) == Pixels(img_buf[..imgi]) + [PixelByte(img_buf[imgi])];
      out := out + [imgvalb];
      imgi := imgi + 1;
    }
  }

  /** The bytes up to the first `sep`, and the bytes after it. */
  function SplitAt(b: seq<byte>, sep: byte): (r: Option<(seq<byte>, seq<byte>)>)
    ensures r.Some? ==> |r.value.1| < |b|
  {
    if b == [] then None
    else if b[0] == sep then Some(([], b[1..]))
    else
      match SplitAt(b[1..], sep)
      case None => None
      case Some((f, rest)) => Some(([b[0]] + f, rest))
  }

  datatype Option<T> = None | Some(value: T)

  /** A parsed PGM file: width, height, maximum grey level and the pixel bytes. */
  datatype Pgm = Pgm(width: nat, height: nat, maxval: nat, pixels: seq<byte>)

  function DigitsValue(b: seq<byte>): Option<nat>
  {
    if b != [] && forall i :: 0 <= i < |b| ==> '0' as int <= b[i] as int <= '9' as int then
      Some(DecimalValue(seq(|b|, i requires 0 <= i < |b| => b[i] as int as char)))
    else None
  }

  /** A reader for exactly the header layout sq_write_pnm produces. */
  function ParsePnm(b: seq<byte>): Option<Pgm>
  {
    if |b| < 3 || b[..3] != MAGIC then None
    else
      match SplitAt(b[3..], SP)
      case None => None
      case Some((w, r1)) =>
        match SplitAt(r1, NL)
        case None => None
        case Some((h, r2)) =>
          match SplitAt(r2, NL)
          case None => None
          case Some((m, pixels)) =>
            match (DigitsValue(w), DigitsValue(h), DigitsValue(m))
            case (Some(wv), Some(hv), Some(mv)) => Some(Pgm(wv, hv, mv, pixels))
            case _ => None
  }

  lemma {:induction false} SplitAtDigits(n: nat, sep: byte, rest: seq<byte>)
    requires !('0' as int <= sep as int <= '9' as int)
    ensures SplitAt(Ascii(Decimal(n)) + [sep] + rest, sep) == Some((Ascii(Decimal(n)), rest))
  {
    SplitAtPrefix(Ascii(Decimal(n)), sep, rest);
  }

  lemma {:induction false} SplitAtPrefix(f: seq<byte>, sep: byte, rest: seq<byte>)
    requires forall i :: 0 <= i < |f| ==> f[i] != sep
    ensures SplitAt(f + [sep] + rest, sep) == Some((f, rest))
    decreases |f|
  {
    var b := f + [sep] + rest;
    if f == [] {
      assert b[1..] == rest;
    } else {
      assert b[1..] == f[1..] + [sep] + rest;
      SplitAtPrefix(f[1..], sep, rest);
      assert [f[0]] + f[1..] == f;
    }
  }

  lemma DigitsOfDecimal(n: nat)
    ensures DigitsValue(Ascii(Decimal(n))) == Some(n)
  {
    var a := Ascii(Decimal(n));
    assert seq(|a|, i requires 0 <= i < |a| => a[i] as int as char) == Decimal(n);
    DecimalRoundTrip(n);
  }

  /** Magic number, then three decimal fields ended by a space and two newlines: the reader
      recovers the three numbers and the bytes after the header. */
  lemma ParseFields(w: nat, h: nat, m: nat, px: seq<byte>)
    ensures ParsePnm(MAGIC + (Ascii(Decimal(w)) + [SP] + (Ascii(Decimal(h)) + [NL] + (Ascii(Decimal(m)) + [NL] + px))))
            == Some(Pgm(w, h, m, px))
  {
    var r2 := Ascii(Decimal(m)) + [NL] + px;
    var r1 := Ascii(Decimal(h)) + [NL] + r2;
    var r0 := Ascii(Decimal(w)) + [SP] + r1;
    var b := MAGIC + r0;
    assert b[..3] == MAGIC && b[3..] == r0;
    SplitAtDigits(w, SP, r1);
    SplitAtDigits(h, NL, r2);
    SplitAtDigits(m, NL, px);
    DigitsOfDecimal(w);
    DigitsOfDecimal(h);
    DigitsOfDecimal(m);
  }

  /** The file sq_write_pnm writes parses back to its own width, height, maximum grey
      level 255 and exactly the pixel bytes that follow the header. */
  lemma PnmRoundTrip(cols: nat, rows: nat, px: seq<byte>)
    ensures ParsePnm(PnmHeader(cols, rows) + px) == Some(Pgm(cols, rows, MAX_PIXEL_VAL, px))
  {
    var dc, dr, dm := Ascii(Decimal(cols)), Ascii(Decimal(rows)), Ascii(Decimal(MAX_PIXEL_VAL));
    assert PnmHeader(cols, rows) + px == MAGIC + (dc + [SP] + (dr + [NL] + (dm + [NL] + px)));
    ParseFields(cols, rows, MAX_PIXEL_VAL, px);
  }

  /** What WritePnm writes for an image parses back to that image's size and pixels. */
  lemma WritePnmParses(img: seq<real>, rows: nat, cols: nat)
    requires rows * cols <= |img|
    ensures ParsePnm(PnmHeader(cols, rows) + Pixels(img[..rows * cols]))
            == Some(Pgm(cols, rows, MAX_PIXEL_VAL, Pixels(img[..rows * cols])))
  {
    PnmRoundTrip(cols, rows, Pixels(img[..rows * cols]));
  }
}
