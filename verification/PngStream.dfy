/** The filtered stream of a PNG image, one filter byte and one row per line: what it decodes to,
    the forward filters that make it, and the stream without filtering that `pnglite` writes. */
module PngStream {
  import opened PngFilters

  datatype Line = Line(filter: byte, bytes: seq<byte>)

  /** Pixels, and whether the stream was understood to its end. */
  datatype Outcome = Outcome(ok: bool, pixels: seq<byte>)

  function Prepend(row: seq<byte>, rest: Outcome): Outcome {
    Outcome(rest.ok, row + rest.pixels)
  }

  function CodeOf(f: Filter): (code: byte)
    ensures code <= 4 && FilterOf(code) == f
  {
    match f
    case NoFilter => 0
    case Sub => 1
    case Up => 2
    case Average => 3
    case PaethFilter => 4
  }

  /** The bytes of 16-bit samples are swapped; rows then have an even length. */
  function SwapIf(deep: bool, row: seq<byte>): (r: seq<byte>)
    ensures |r| == |row|
  {
    if deep && |row| % 2 == 0 then Swapped(row) else row
  }

  /** Rebuild line after line, each from the one before, until a filter is unknown. */
  function Unfiltered(lines: seq<Line>, prior: seq<byte>, stride: nat, deep: bool): Outcome {
    if lines == [] then Outcome(true, [])
    else if lines[0].filter > 4 then Outcome(false, [])
    else
      var row := DecodeRow(PredictorOf(FilterOf(lines[0].filter)), SwapIf(deep, lines[0].bytes), prior, stride);
      Prepend(row, Unfiltered(lines[1..], row, stride, deep))
  }

  // ----- the reference encoder -----

  /** Rows filtered one by one, each with a filter of its own. */
  function FilterLines(rows: seq<seq<byte>>, filters: seq<Filter>, prior: seq<byte>, stride: nat): (lines: seq<Line>)
    requires |rows| == |filters|
    ensures |lines| == |rows|
  {
    if rows == [] then []
    else
      [Line(CodeOf(filters[0]), FilterRow(PredictorOf(filters[0]), rows[0], prior, stride))]
      + FilterLines(rows[1..], filters[1..], rows[0], stride)
  }

  function Pixels(rows: seq<seq<byte>>, deep: bool): seq<byte> {
    if rows == [] then [] else SwapIf(deep, rows[0]) + Pixels(rows[1..], deep)
  }

  /** Row and stride lengths that go together: 16-bit samples have an even stride. */
  predicate Shape(len: nat, stride: nat, deep: bool) {
    (stride > 0 || len == 0) && (deep ==> stride % 2 == 0 && len % 2 == 0)
  }

  predicate AllOfLength(rows: seq<seq<byte>>, len: nat) {
    forall k :: 0 <= k < |rows| ==> |rows[k]| == len
  }

  lemma SwapIfThenDecode(f: Filter, ins: seq<byte>, prior: seq<byte>, len: nat, stride: nat, deep: bool)
    requires Shape(len, stride, deep) && |ins| == len && (prior == [] || |prior| == len)
    ensures DecodeRow(PredictorOf(f), SwapIf(deep, ins), SwapIf(deep, prior), stride)
            == SwapIf(deep, DecodeRow(PredictorOf(f), ins, prior, stride))
  {
    if deep {
      SwapThenDecode(PredictorOf(f), ins, prior, stride);
    }
  }

  /** The decoder inverts the forward filters for every choice of a filter per row; 16-bit samples
      come out with their bytes swapped. */
  lemma {:induction false} UnfilterInvertsFilters(rows: seq<seq<byte>>, filters: seq<Filter>, prior: seq<byte>,
                                                  len: nat, stride: nat, deep: bool)
    requires |rows| == |filters| && AllOfLength(rows, len) && Shape(len, stride, deep)
    requires prior == [] || |prior| == len
    ensures Unfiltered(FilterLines(rows, filters, prior, stride), SwapIf(deep, prior), stride, deep)
            == Outcome(true, Pixels(rows, deep))
    decreases |rows|
  {
    if rows != [] {
      var f, ins := filters[0], FilterRow(PredictorOf(filters[0]), rows[0], prior, stride);
      SwapIfThenDecode(f, ins, prior, len, stride, deep);
      DecodeInvertsFilter(PredictorOf(f), rows[0], prior, stride);
      UnfilterInvertsFilters(rows[1..], filters[1..], rows[0], len, stride, deep);
    }
  }

  /** Decoding succeeds exactly when every filter is known. */
  lemma {:induction false} OkWhenFiltersKnown(lines: seq<Line>, prior: seq<byte>, stride: nat, deep: bool)
    ensures Unfiltered(lines, prior, stride, deep).ok <==> forall k :: 0 <= k < |lines| ==> lines[k].filter <= 4
  {
    if lines != [] && lines[0].filter <= 4 {
      var row := DecodeRow(PredictorOf(FilterOf(lines[0].filter)), SwapIf(deep, lines[0].bytes), prior, stride);
      OkWhenFiltersKnown(lines[1..], row, stride, deep);
      assert forall k :: 1 <= k < |lines| ==> lines[k] == lines[1..][k - 1];
    }
  }

  predicate AllKnown(lines: seq<Line>, len: nat) {
    forall k :: 0 <= k < |lines| ==> |lines[k].bytes| == len && lines[k].filter <= 4
  }

  /** The rows a stream of known filters decodes to, with no bytes swapped. */
  function RowsOf(lines: seq<Line>, prior: seq<byte>, len: nat, stride: nat): (rows: seq<seq<byte>>)
    requires AllKnown(lines, len)
    ensures |rows| == |lines| && AllOfLength(rows, len)
  {
    if lines == [] then []
    else
      var row := DecodeRow(PredictorOf(FilterOf(lines[0].filter)), lines[0].bytes, prior, stride);
      [row] + RowsOf(lines[1..], row, len, stride)
  }

  function FiltersOf(lines: seq<Line>, len: nat): (filters: seq<Filter>)
    requires AllKnown(lines, len)
    ensures |filters| == |lines|
  {
    if lines == [] then [] else [FilterOf(lines[0].filter)] + FiltersOf(lines[1..], len)
  }

  /** Whatever decodes is what the forward filters make of the rows it decodes to. */
  lemma {:induction false} DecodedIsFiltered(lines: seq<Line>, prior: seq<byte>, len: nat, stride: nat)
    requires (stride > 0 || len == 0) && AllKnown(lines, len)
    ensures FilterLines(RowsOf(lines, prior, len, stride), FiltersOf(lines, len), prior, stride) == lines
  {
    if lines != [] {
      var f := FilterOf(lines[0].filter);
      var row := DecodeRow(PredictorOf(f), lines[0].bytes, prior, stride);
      LineIsFiltered(lines[0], prior, stride);
      DecodedIsFiltered(lines[1..], row, len, stride);
      OneMoreDecoded(lines, row, RowsOf(lines[1..], row, len, stride), f, FiltersOf(lines[1..], len),
                     prior, len, stride);
    }
  }

  lemma OneMoreDecoded(lines: seq<Line>, row: seq<byte>, rows: seq<seq<byte>>, f: Filter, filters: seq<Filter>,
                       prior: seq<byte>, len: nat, stride: nat)
    requires AllKnown(lines, len) && lines != [] && |rows| == |filters|
    requires RowsOf(lines, prior, len, stride) == [row] + rows && FiltersOf(lines, len) == [f] + filters
    requires FilterLines(rows, filters, row, stride) == lines[1..]
    requires lines[0] == Line(CodeOf(f), FilterRow(PredictorOf(f), row, prior, stride))
    ensures FilterLines(RowsOf(lines, prior, len, stride), FiltersOf(lines, len), prior, stride) == lines
  {
    ConsIsFiltered(lines[0], lines[1..], row, rows, f, filters, prior, stride);
    assert lines == [lines[0]] + lines[1..];
  }

  lemma ConsIsFiltered(line: Line, lines: seq<Line>, row: seq<byte>, rows: seq<seq<byte>>,
                       f: Filter, filters: seq<Filter>, prior: seq<byte>, stride: nat)
    requires |rows| == |filters| && FilterLines(rows, filters, row, stride) == lines
    requires line == Line(CodeOf(f), FilterRow(PredictorOf(f), row, prior, stride))
    ensures FilterLines([row] + rows, [f] + filters, prior, stride) == [line] + lines
  {
    FilterLinesCons(row, rows, f, filters, prior, stride);
  }

  lemma LineIsFiltered(line: Line, prior: seq<byte>, stride: nat)
    requires line.filter <= 4 && (stride > 0 || line.bytes == [])
    ensures var f := FilterOf(line.filter);
            var row := DecodeRow(PredictorOf(f), line.bytes, prior, stride);
            Line(CodeOf(f), FilterRow(PredictorOf(f), row, prior, stride)) == line
  {
    FilterInvertsDecode(PredictorOf(FilterOf(line.filter)), line.bytes, prior, stride);
  }

  lemma FilterLinesCons(row: seq<byte>, rows: seq<seq<byte>>, f: Filter, filters: seq<Filter>,
                        prior: seq<byte>, stride: nat)
    requires |rows| == |filters|
    ensures FilterLines([row] + rows, [f] + filters, prior, stride)
            == [Line(CodeOf(f), FilterRow(PredictorOf(f), row, prior, stride))]
               + FilterLines(rows, filters, row, stride)
  {
    assert ([row] + rows)[1..] == rows && ([f] + filters)[1..] == filters;
  }

  lemma {:induction false} DecodesToRows(lines: seq<Line>, prior: seq<byte>, len: nat, stride: nat)
    requires AllKnown(lines, len)
    ensures Unfiltered(lines, prior, stride, false) == Outcome(true, Pixels(RowsOf(lines, prior, len, stride), false))
  {
    if lines != [] {
      var row := RowsOf(lines, prior, len, stride)[0];
      DecodesToRows(lines[1..], row, len, stride);
      assert RowsOf(lines, prior, len, stride)[1..] == RowsOf(lines[1..], row, len, stride);
    }
  }

  /** Row after row, from the top: each satisfies the law of its filter with the row above it. */
  ghost predicate ImageLaw(lines: seq<Line>, prior: seq<byte>, pixels: seq<byte>, stride: nat, deep: bool) {
    if lines == [] then pixels == []
    else
      var len := |lines[0].bytes|;
      && len <= |pixels|
      && RowLaw(lines[0].filter, SwapIf(deep, lines[0].bytes), prior, stride, pixels[..len])
      && ImageLaw(lines[1..], pixels[..len], pixels[len..], stride, deep)
  }

  /** The decoded image is the one image that satisfies the laws of the filters of its rows. */
  lemma {:induction false} LawfulImage(lines: seq<Line>, prior: seq<byte>, pixels: seq<byte>, len: nat,
                                       stride: nat, deep: bool)
    requires (stride > 0 || len == 0) && AllKnown(lines, len)
    ensures ImageLaw(lines, prior, pixels, stride, deep) <==> pixels == Unfiltered(lines, prior, stride, deep).pixels
  {
    if lines != [] {
      var ins := SwapIf(deep, lines[0].bytes);
      var row := DecodeRow(PredictorOf(FilterOf(lines[0].filter)), ins, prior, stride);
      var rest := Unfiltered(lines[1..], row, stride, deep).pixels;
      if len <= |pixels| {
        LawfulRow(lines[0].filter, ins, prior, stride, pixels[..len]);
        LawfulImage(lines[1..], pixels[..len], pixels[len..], len, stride, deep);
        FrontAndRest(pixels, row, rest);
      }
    }
  }

  lemma FrontAndRest(whole: seq<byte>, front: seq<byte>, rest: seq<byte>)
    requires |front| <= |whole|
    ensures whole == front + rest <==> whole[..|front|] == front && whole[|front|..] == rest
  {
  }

  // ----- lines in a stream of bytes -----

  /** A stream cut into lines of a filter byte and `len` bytes. */
  function Lines(stream: seq<byte>, len: nat): seq<Line> {
    if |stream| < 1 + len then []
    else [Line(stream[0], stream[1..1 + len])] + Lines(stream[1 + len..], len)
  }

  /** The stream of these lines. */
  function Flat(lines: seq<Line>): seq<byte> {
    if lines == [] then [] else [lines[0].filter] + lines[0].bytes + Flat(lines[1..])
  }

  lemma LinesCons(filter: byte, row: seq<byte>, rest: seq<byte>, len: nat)
    requires |row| == len
    ensures Lines([filter] + row + rest, len) == [Line(filter, row)] + Lines(rest, len)
  {
    var s: seq<byte> := [filter] + row + rest;
    assert s[1..1 + len] == row && s[1 + len..] == rest;
  }

  /** Cutting a stream into lines undoes putting them together. */
  lemma {:induction false} LinesOfFlat(lines: seq<Line>, len: nat)
    requires forall k :: 0 <= k < |lines| ==> |lines[k].bytes| == len
    ensures Lines(Flat(lines), len) == lines && |Flat(lines)| == Area(|lines|, 1 + len)
  {
    if lines != [] {
      LinesOfFlat(lines[1..], len);
      LinesCons(lines[0].filter, lines[0].bytes, Flat(lines[1..]), len);
      assert lines == [Line(lines[0].filter, lines[0].bytes)] + lines[1..];
    }
  }

  lemma {:induction false} FilterLinesLength(rows: seq<seq<byte>>, filters: seq<Filter>, prior: seq<byte>,
                                             len: nat, stride: nat)
    requires |rows| == |filters| && AllOfLength(rows, len)
    ensures forall k :: 0 <= k < |rows| ==> |FilterLines(rows, filters, prior, stride)[k].bytes| == len
    decreases |rows|
  {
    if rows != [] {
      var lines := FilterLines(rows, filters, prior, stride);
      FilterLinesLength(rows[1..], filters[1..], rows[0], len, stride);
      assert lines[1..] == FilterLines(rows[1..], filters[1..], rows[0], stride);
      forall k | 0 <= k < |rows| ensures |lines[k].bytes| == len {
        if k > 0 { assert lines[k] == lines[1..][k - 1]; }
      }
    }
  }

  lemma {:induction false} PixelsLength(rows: seq<seq<byte>>, len: nat, deep: bool)
    requires AllOfLength(rows, len)
    ensures |Pixels(rows, deep)| == Area(|rows|, len)
  {
    if rows != [] {
      PixelsLength(rows[1..], len, deep);
    }
  }

  lemma {:induction false} AreaGrows(m: nat, n: nat, len: nat)
    requires m < n && len > 0
    ensures Area(m, len) < Area(n, len)
  {
    if m + 1 < n {
      AreaGrows(m, n - 1, len);
    }
  }

  /** In a buffer for `height` lines, a stream of forward-filtered rows has that many, and decodes
      to exactly as many pixels as there is room for. */
  lemma FilteredStreamDecodes(rows: seq<seq<byte>>, filters: seq<Filter>, height: nat,
                              len: nat, stride: nat, deep: bool)
    requires |rows| == |filters| && AllOfLength(rows, len) && Shape(len, stride, deep)
    requires |Flat(FilterLines(rows, filters, [], stride))| == Area(height, 1 + len)
    ensures Unfiltered(Lines(Flat(FilterLines(rows, filters, [], stride)), len), [], stride, deep)
            == Outcome(true, Pixels(rows, deep))
    ensures |Pixels(rows, deep)| == Area(height, len)
  {
    var lines := FilterLines(rows, filters, [], stride);
    FilterLinesLength(rows, filters, [], len, stride);
    LinesOfFlat(lines, len);
    UnfilterInvertsFilters(rows, filters, [], len, stride, deep);
    assert SwapIf(deep, []) == [];
    PixelsLength(rows, len, deep);
    if |rows| < height {
      AreaGrows(|rows|, height, 1 + len);
    } else if |rows| > height {
      AreaGrows(height, |rows|, 1 + len);
    }
  }

  lemma FilteredStreamsDecode(stream: seq<byte>, height: nat, len: nat, stride: nat, deep: bool)
    requires |stream| == Area(height, 1 + len) && Shape(len, stride, deep)
    ensures forall rows, filters ::
              |rows| == |filters| && AllOfLength(rows, len) && stream == Flat(FilterLines(rows, filters, [], stride))
              ==> Unfiltered(Lines(stream, len), [], stride, deep) == Outcome(true, Pixels(rows, deep))
                  && |Pixels(rows, deep)| == Area(height, len)
  {
    forall rows, filters |
      |rows| == |filters| && AllOfLength(rows, len) && stream == Flat(FilterLines(rows, filters, [], stride))
      ensures Unfiltered(Lines(stream, len), [], stride, deep) == Outcome(true, Pixels(rows, deep))
              && |Pixels(rows, deep)| == Area(height, len)
    {
      FilteredStreamDecodes(rows, filters, height, len, stride, deep);
    }
  }

  function Area(n: nat, len: nat): nat {
    if n == 0 then 0 else Area(n - 1, len) + len
  }

  lemma {:induction false} AreaIsProduct(n: nat, len: nat)
    ensures Area(n, len) == n * len
    ensures Area(n, 1 + len) == n * len + n
  {
    if n > 0 {
      AreaIsProduct(n - 1, len);
      assert n * len == (n - 1) * len + len;
    }
  }

  lemma {:induction false} LinesAreWhole(stream: seq<byte>, n: nat, len: nat)
    requires |stream| == Area(n, 1 + len)
    ensures |Lines(stream, len)| == n && forall k :: 0 <= k < n ==> |Lines(stream, len)[k].bytes| == len
  {
    if n > 0 {
      LinesAreWhole(stream[1 + len..], n - 1, len);
      assert Lines(stream, len)[1..] == Lines(stream[1 + len..], len);
      assert forall k | 1 <= k < n :: Lines(stream, len)[k] == Lines(stream, len)[1..][k - 1];
    }
  }

  lemma {:induction false} DecodedLength(lines: seq<Line>, prior: seq<byte>, len: nat, stride: nat, deep: bool)
    requires AllKnown(lines, len)
    ensures |Unfiltered(lines, prior, stride, deep).pixels| == Area(|lines|, len)
  {
    if lines != [] {
      var row := DecodeRow(PredictorOf(FilterOf(lines[0].filter)), SwapIf(deep, lines[0].bytes), prior, stride);
      DecodedLength(lines[1..], row, len, stride, deep);
    }
  }

  /** A stream of `height` lines that decodes gives an image of that height, by the laws of the
      filters named in it. */
  lemma StreamLaw(stream: seq<byte>, height: nat, len: nat, stride: nat, deep: bool)
    requires |stream| == Area(height, 1 + len) && (stride > 0 || len == 0)
    ensures var result := Unfiltered(Lines(stream, len), [], stride, deep);
            result.ok ==>
              |result.pixels| == Area(height, len) && ImageLaw(Lines(stream, len), [], result.pixels, stride, deep)
  {
    var lines := Lines(stream, len);
    LinesAreWhole(stream, height, len);
    OkWhenFiltersKnown(lines, [], stride, deep);
    if Unfiltered(lines, [], stride, deep).ok {
      DecodedLength(lines, [], len, stride, deep);
      LawfulImage(lines, [], Unfiltered(lines, [], stride, deep).pixels, len, stride, deep);
    }
  }

  // ----- the stream that is written -----

  /** Rows as they are, each after a zero filter byte. */
  function PlainStream(data: seq<byte>, n: nat, len: nat): seq<byte> {
    if n == 0 || |data| < len then [] else [0] + data[..len] + PlainStream(data[len..], n - 1, len)
  }

  function RowsIn(data: seq<byte>, n: nat, len: nat): (rows: seq<seq<byte>>)
    ensures AllOfLength(rows, len)
  {
    if n == 0 || |data| < len then [] else [data[..len]] + RowsIn(data[len..], n - 1, len)
  }

  function Unfiltering(n: nat): (filters: seq<Filter>)
    ensures |filters| == n
  {
    if n == 0 then [] else [NoFilter] + Unfiltering(n - 1)
  }

  lemma RowsCons(row: seq<byte>, rest: seq<byte>, n: nat)
    requires n > 0
    ensures RowsIn(row + rest, n, |row|) == [row] + RowsIn(rest, n - 1, |row|)
    ensures PlainStream(row + rest, n, |row|) == [0] + row + PlainStream(rest, n - 1, |row|)
  {
    assert (row + rest)[..|row|] == row && (row + rest)[|row|..] == rest;
  }

  lemma {:induction false} PlainIsFiltered(data: seq<byte>, n: nat, len: nat, prior: seq<byte>, stride: nat)
    ensures Lines(PlainStream(data, n, len), len)
            == FilterLines(RowsIn(data, n, len), Unfiltering(|RowsIn(data, n, len)|), prior, stride)
  {
    if n > 0 && |data| >= len {
      var row, rest := data[..len], data[len..];
      assert data == row + rest;
      PlainIsFiltered(rest, n - 1, len, row, stride);
      RowsCons(row, rest, n);
      OneMorePlain(data, n, len, prior, stride, row, PlainStream(rest, n - 1, len), RowsIn(rest, n - 1, len));
    }
  }

  lemma OneMorePlain(data: seq<byte>, n: nat, len: nat, prior: seq<byte>, stride: nat,
                     row: seq<byte>, rest: seq<byte>, rows: seq<seq<byte>>)
    requires PlainStream(data, n, len) == [0] + row + rest && RowsIn(data, n, len) == [row] + rows
    requires |row| == len && Lines(rest, len) == FilterLines(rows, Unfiltering(|rows|), row, stride)
    ensures Lines(PlainStream(data, n, len), len)
            == FilterLines(RowsIn(data, n, len), Unfiltering(|RowsIn(data, n, len)|), prior, stride)
  {
    PlainCons(row, rest, rows, len, prior, stride);
  }

  lemma PlainCons(row: seq<byte>, rest: seq<byte>, rows: seq<seq<byte>>, len: nat, prior: seq<byte>, stride: nat)
    requires |row| == len && Lines(rest, len) == FilterLines(rows, Unfiltering(|rows|), row, stride)
    ensures Lines([0] + row + rest, len)
            == FilterLines([row] + rows, Unfiltering(|[row] + rows|), prior, stride)
  {
    LinesCons(0, row, rest, len);
    NothingFiltered(row, prior, stride);
    FilterLinesCons(row, rows, NoFilter, Unfiltering(|rows|), prior, stride);
  }

  lemma NothingFiltered(row: seq<byte>, prior: seq<byte>, stride: nat)
    ensures FilterRow(PredictorOf(NoFilter), row, prior, stride) == row
  {
    var r := FilterRow(PredictorOf(NoFilter), row, prior, stride);
    forall i | 0 <= i < |row| ensures r[i] == row[i] {
      assert Prediction(PredictorOf(NoFilter), row, prior, stride, i) == 0;
    }
  }

  lemma {:induction false} PixelsOfRows(data: seq<byte>, n: nat, len: nat, deep: bool)
    requires |data| == Area(n, len) && (deep ==> len % 2 == 0)
    ensures Pixels(RowsIn(data, n, len), deep) == SwapIf(deep, data)
  {
    if n > 0 {
      var row, rest := data[..len], data[len..];
      assert data == row + rest && |rest| == Area(n - 1, len);
      PixelsOfRows(rest, n - 1, len, deep);
      RowsCons(row, rest, n);
      PixelsCons(row, RowsIn(rest, n - 1, len), deep);
      if deep { AreaIsEven(n - 1, len); }
      SwapIfAppends(row, rest, deep);
    }
  }

  lemma {:induction false} AreaIsEven(n: nat, len: nat)
    requires len % 2 == 0
    ensures Area(n, len) % 2 == 0
  {
    if n > 0 {
      AreaIsEven(n - 1, len);
    }
  }

  lemma PixelsCons(row: seq<byte>, rows: seq<seq<byte>>, deep: bool)
    ensures Pixels([row] + rows, deep) == SwapIf(deep, row) + Pixels(rows, deep)
  {
    assert ([row] + rows)[1..] == rows;
  }

  lemma {:induction false} SwapIfAppends(row: seq<byte>, rest: seq<byte>, deep: bool)
    requires deep ==> |row| % 2 == 0 && |rest| % 2 == 0
    ensures SwapIf(deep, row + rest) == SwapIf(deep, row) + SwapIf(deep, rest)
    decreases |row|
  {
    if !deep || row == [] {
      assert row == [] ==> row + rest == rest;
    } else {
      assert (row + rest)[2..] == row[2..] + rest;
      SwapIfAppends(row[2..], rest, deep);
    }
  }

  /** The stream is made of the image only, however large the buffer it is in. */
  lemma {:induction false} OnlyTheImage(data: seq<byte>, n: nat, len: nat)
    requires |data| >= Area(n, len)
    ensures PlainStream(data, n, len) == PlainStream(data[..Area(n, len)], n, len)
  {
    if n > 0 {
      var image := data[..Area(n, len)];
      OnlyTheImage(data[len..], n - 1, len);
      assert image[..len] == data[..len] && image[len..] == data[len..][..Area(n - 1, len)];
    }
  }

  /** Reading back what was written gives the image, with the bytes of 16-bit samples swapped. */
  lemma WriteThenRead(data: seq<byte>, n: nat, len: nat, stride: nat, deep: bool)
    requires |data| == Area(n, len) && Shape(len, stride, deep)
    ensures Unfiltered(Lines(PlainStream(data, n, len), len), [], stride, deep) == Outcome(true, SwapIf(deep, data))
  {
    var rows := RowsIn(data, n, len);
    PlainIsFiltered(data, n, len, [], stride);
    UnfilterInvertsFilters(rows, Unfiltering(|rows|), [], len, stride, deep);
    PixelsOfRows(data, n, len, deep);
    assert SwapIf(deep, []) == [];
  }

  /** So an image survives being written and read exactly when its samples are one byte wide or
      read the same in either byte order. */
  lemma SurvivesWhenSymmetric(data: seq<byte>, n: nat, len: nat, stride: nat, deep: bool)
    requires |data| == Area(n, len) && Shape(len, stride, deep)
    ensures Unfiltered(Lines(PlainStream(data, n, len), len), [], stride, deep) == Outcome(true, data)
            <==> (deep ==> forall i :: 0 <= i < |data| ==> Partner(i) < |data| && data[i] == data[Partner(i)])
  {
    WriteThenRead(data, n, len, stride, deep);
    if deep {
      AreaIsEven(n, len);
      SwappedIsSwap(data);
      IsSwapIsSwapped(data, data);
    }
  }

  /** One 16-bit grey pixel of value 1 comes back as 256. */
  lemma OneWidePixel()
    ensures Unfiltered(Lines(PlainStream([0, 1], 1, 2), 2), [], 2, true) == Outcome(true, [1, 0])
  {
    var data: seq<byte> := [0, 1];
    assert Area(1, 2) == Area(0, 2) + 2;
    WriteThenRead(data, 1, 2, 2, true);
    assert data[2..] == [];
    assert Swapped(data) == [1, 0] + Swapped([]);
  }
}
