/**
  The CSV files the loops write through `DataFrame.to_csv`. A file is a
  sequence of lines: a header line, or one line per record. The text a line
  holds (column names, escaping) is pandas' business and is not modelled.
 */
module CsvSink {

  datatype Line<R> = Header | Row(record: R)

  /** One data line per record, in order. */
  function Rows<R>(batch: seq<R>): (lines: seq<Line<R>>)
    ensures |lines| == |batch|
    ensures forall i | 0 <= i < |batch| :: lines[i] == Row(batch[i])
    decreases |batch|
  {
    if |batch| == 0 then [] else [Row(batch[0])] + Rows(batch[1..])
  }

  /** What one `to_csv(..., header=h, index=False)` call writes. */
  function Frame<R>(batch: seq<R>, header: bool): seq<Line<R>>
  {
    (if header then [Header] else []) + Rows(batch)
  }

  /** The records a reader gets back from the file, header lines skipped. */
  function DataRows<R>(lines: seq<Line<R>>): seq<R>
    decreases |lines|
  {
    if |lines| == 0 then []
    else (if lines[0].Row? then [lines[0].record] else []) + DataRows(lines[1..])
  }

  /** The number of header lines in the file. */
  function HeaderCount<R>(lines: seq<Line<R>>): nat
    decreases |lines|
  {
    if |lines| == 0 then 0
    else (if lines[0].Header? then 1 else 0) + HeaderCount(lines[1..])
  }

  lemma {:induction false} DataRowsAppend<R>(a: seq<Line<R>>, b: seq<Line<R>>)
    ensures DataRows(a + b) == DataRows(a) + DataRows(b)
    decreases |a|
  {
    if |a| == 0 {
      assert a + b == b;
    } else {
      assert (a + b)[0] == a[0] && (a + b)[1..] == a[1..] + b;
      DataRowsAppend(a[1..], b);
    }
  }

  lemma {:induction false} HeaderCountAppend<R>(a: seq<Line<R>>, b: seq<Line<R>>)
    ensures HeaderCount(a + b) == HeaderCount(a) + HeaderCount(b)
    decreases |a|
  {
    if |a| == 0 {
      assert a + b == b;
    } else {
      assert (a + b)[0] == a[0] && (a + b)[1..] == a[1..] + b;
      HeaderCountAppend(a[1..], b);
    }
  }

  /** Reading the data lines of a written batch gives the batch back, and
      the batch holds a header exactly when one was asked for. */
  lemma {:induction false} FrameRoundTrip<R>(batch: seq<R>, header: bool)
    ensures DataRows(Frame(batch, header)) == batch
    ensures HeaderCount(Frame(batch, header)) == if header then 1 else 0
    ensures |Frame(batch, header)| == |batch| + (if header then 1 else 0)
    decreases |batch|
  {
    var h: seq<Line<R>> := if header then [Header] else [];
    DataRowsAppend(h, Rows(batch));
    HeaderCountAppend(h, Rows(batch));
    if header {
      assert DataRows(h) == [] + DataRows(h[1..]);
      assert HeaderCount(h) == 1 + HeaderCount(h[1..]);
    }
    if |batch| > 0 {
      FrameRoundTrip(batch[1..], false);
      assert Rows(batch) == [Row(batch[0])] + Rows(batch[1..]);
      assert Frame(batch[1..], false) == Rows(batch[1..]);
      DataRowsAppend([Row(batch[0])], Rows(batch[1..]));
      HeaderCountAppend([Row(batch[0])], Rows(batch[1..]));
      assert DataRows([Row(batch[0])]) == [batch[0]] + DataRows([Row(batch[0])][1..]);
      assert HeaderCount([Row(batch[0])]) == 0 + HeaderCount([Row(batch[0])][1..]);
    }
  }

  /** Appending a batch to a file: the earlier lines stay as they were, the
      batch's records follow the earlier records, and a header is added only
      when asked for. */
  lemma AppendFrame<R>(file: seq<Line<R>>, batch: seq<R>, header: bool)
    ensures (file + Frame(batch, header))[..|file|] == file
    ensures DataRows(file + Frame(batch, header)) == DataRows(file) + batch
    ensures HeaderCount(file + Frame(batch, header)) == HeaderCount(file) + (if header then 1 else 0)
    ensures |file + Frame(batch, header)| == |file| + |batch| + (if header then 1 else 0)
  {
    FrameRoundTrip(batch, header);
    DataRowsAppend(file, Frame(batch, header));
    HeaderCountAppend(file, Frame(batch, header));
  }

  /** An output file: whether it exists on disk (`os.path.isfile`) and what
      it holds. */
  class CsvFile<R> {
    var isFile: bool
    var lines: seq<Line<R>>

    /** A file that does not exist holds nothing. */
    ghost predicate Valid()
      reads this
    {
      isFile || |lines| == 0
    }

    constructor (isFile: bool, lines: seq<Line<R>>)
      requires isFile || |lines| == 0
      ensures Valid() && this.isFile == isFile && this.lines == lines
    {
      this.isFile := isFile;
      this.lines := lines;
    }

    /** `open(filename, "a")`: creates the file if missing, keeps its content. */
    method OpenAppend()
      requires Valid()
      modifies this
      ensures Valid() && isFile && lines == old(lines)
    {
      isFile := true;
    }

    /** `df.to_csv(f, header=header, index=False)` on a file opened for
        appending, or `to_csv(path, mode="a", header=header)`. */
    method AppendCsv(batch: seq<R>, header: bool)
      requires Valid()
      modifies this
      ensures Valid() && isFile
      ensures lines == old(lines) + Frame(batch, header)
    {
      isFile := true;
      lines := lines + Frame(batch, header);
    }

    /** `df.to_csv(path, index=False)` with the default mode "w": the file is
        replaced by a header and the batch. */
    method OverwriteCsv(batch: seq<R>)
      requires Valid()
      modifies this
      ensures Valid() && isFile
      ensures lines == Frame(batch, true)
    {
      isFile := true;
      lines := Frame(batch, true);
    }
  }
}
