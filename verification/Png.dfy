/** The part of `pnglite` that rebuilds an image from its filtered stream and makes the stream of an
    image. */
module Png {
  import opened Wrappers
  import opened PngFilters
  import opened PngRows
  import opened PngStream

  datatype Colour = Greyscale | Truecolour | Indexed | GreyscaleAlpha | TruecolourAlpha

  /** The colour type a number in the header stands for; any other number is an error. */
  function ColourOf(code: nat): Option<Colour> {
    match code
    case 0 => Some(Greyscale)
    case 2 => Some(Truecolour)
    case 3 => Some(Indexed)
    case 4 => Some(GreyscaleAlpha)
    case 6 => Some(TruecolourAlpha)
    case _ => None
  }

  function Channels(colour: Colour): nat {
    match colour
    case Greyscale => 1
    case Truecolour => 3
    case Indexed => 1
    case GreyscaleAlpha => 2
    case TruecolourAlpha => 4
  }

  /** Bytes per pixel. */
  function BytesPerPixel(colour: Colour, depth: nat): nat {
    Channels(colour) * (depth / 8)
  }

  /** As section 4.1.1 of RFC 2083 has it, a colour type is a sum of 1 for a palette, 2 for colour and 4
      for an alpha channel; a palette index is one channel. */
  lemma ChannelsByNumber(code: nat)
    ensures ColourOf(code).Some? <==> code in {0, 2, 3, 4, 6}
    ensures ColourOf(code).Some? ==>
              var palette, colour, alpha := code % 2, code / 2 % 2, code / 4 % 2;
              var channels := if palette == 1 then 1 else 1 + 2 * colour + alpha;
              && BytesPerPixel(ColourOf(code).value, 8) == channels
              && BytesPerPixel(ColourOf(code).value, 16) == 2 * channels
  {
  }

  datatype Status = NoError | UnknownFilter

  class Image {
    var width: nat
    var height: nat
    var depth: nat
    var colour: Colour
    var bpp: nat
    var pngData: array<byte>

    /** The header is consistent and the buffer has the size it was allocated with. */
    ghost predicate Ready()
      reads this
    {
      && bpp == BytesPerPixel(colour, depth)
      && pngData.Length == Area(height, 1 + width * bpp)
    }

    constructor (width: nat, height: nat, depth: nat, colour: Colour, pngData: array<byte>)
      requires pngData.Length == width * height * BytesPerPixel(colour, depth) + height
      ensures Ready() && this.width == width && this.height == height && this.depth == depth
      ensures this.colour == colour && this.pngData == pngData
    {
      this.width, this.height, this.depth, this.colour, this.pngData := width, height, depth, colour, pngData;
      bpp := BytesPerPixel(colour, depth);
      SizeIsArea(width, height, BytesPerPixel(colour, depth));
    }

    /** Rebuild the pixels of the image, swapping the bytes of 16-bit samples on the way. */
    method Unfilter(data: array<byte>) returns (status: Status)
      requires Ready() && data != pngData && data.Length >= Area(height, width * bpp)
      modifies data, pngData
      ensures var result := Unfiltered(Lines(old(pngData[..]), width * bpp), [], bpp, depth == 16);
              && (status == NoError <==> result.ok)
              && |result.pixels| <= data.Length
              && data[..] == result.pixels + old(data[..])[|result.pixels|..]
      ensures status == NoError ==>
                ImageLaw(Lines(old(pngData[..]), width * bpp), [], data[..Area(height, width * bpp)], bpp, depth == 16)
      ensures forall rows, filters ::
                |rows| == |filters| && AllOfLength(rows, width * bpp)
                && old(pngData[..]) == Flat(FilterLines(rows, filters, [], bpp))
                ==> status == NoError && |Pixels(rows, depth == 16)| == Area(height, width * bpp)
                    && data[..] == Pixels(rows, depth == 16) + old(data[..])[Area(height, width * bpp)..]
    {
      ghost var stream, len, deep := pngData[..], width * bpp, depth == 16;
      RowShape(width, colour, depth);
      AreasAreSized(height, data.Length, width * bpp);
      status := UnfilterLines(bpp, depth == 16, pngData, data, width * bpp, height);
      FilteredStreamsDecode(stream, height, len, bpp, deep);
      StreamLaw(stream, height, len, bpp, deep);
    }

    /** Describe an image and lay out its rows, unfiltered, for writing. */
    method SetData(width: nat, height: nat, depth: nat, colour: Colour, data: array<byte>)
      returns (filtered: array<byte>)
      requires data.Length >= Area(height, width * BytesPerPixel(colour, depth))
      modifies this
      ensures this.width == width && this.height == height && this.depth == depth && this.colour == colour
      ensures bpp == BytesPerPixel(colour, depth)
      ensures fresh(filtered) && filtered[..] == PlainStream(data[..], height, width * bpp)
      ensures filtered.Length == Area(height, 1 + width * bpp)
    {
      this.width, this.height, this.depth, this.colour := width, height, depth, colour;
      bpp := BytesPerPixel(colour, depth);
      filtered := PlainLines(width, height, bpp, data);
    }
  }

  method PlainLines(width: nat, height: nat, bpp: nat, data: array<byte>) returns (filtered: array<byte>)
    requires data.Length >= Area(height, width * bpp)
    ensures fresh(filtered) && filtered[..] == PlainStream(data[..], height, width * bpp)
    ensures filtered.Length == Area(height, 1 + width * bpp)
  {
    SizeIsArea(width, height, bpp);
    AreasAreSized(height, data.Length, width * bpp);
    var size: nat := width * height * bpp + height;
    filtered := new byte[size](_ => 0);
    LayOut(filtered, data, height, width * bpp);
  }

  /** Rebuild the lines one by one, from the first. */
  method UnfilterLines(stride: nat, deep: bool, filtered: array<byte>, data: array<byte>, len: nat, ghost height: nat)
    returns (status: Status)
    requires data != filtered && Shape(len, stride, deep)
    requires Sized(height, filtered.Length, data.Length, len)
    modifies data, filtered
    ensures var result := Unfiltered(Lines(old(filtered[..]), len), [], stride, deep);
            && (status == NoError <==> result.ok)
            && Holds(data[..], |result.pixels|, result.pixels, old(data[..]))
  {
    var pos: nat, outpos: nat := 0, 0;
    ghost var before, left := data[..], height;
    ghost var tail: seq<byte>, done: seq<byte>, prior: seq<byte> := filtered[..], [], [];
    ghost var result := Unfiltered(Lines(tail, len), [], stride, deep);
    LinesStart(result, tail, before, len, stride, deep);
    while pos < filtered.Length
      invariant pos <= filtered.Length && outpos <= data.Length
      invariant Sized(left, filtered.Length - pos, data.Length - outpos, len)
      invariant filtered[pos..] == tail && Holds(data[..], outpos, done, before)
      invariant Remains(result, done, tail, prior, len, stride, deep)
    {
      var known;
      known, pos, outpos, left, done, tail, prior :=
        NextLine(stride, deep, filtered, pos, data, outpos, len, result, before, left, done, tail, prior);
      if !known {
        return UnknownFilter;
      }
    }
    assert tail == [];
    LinesEnd(result, done, prior, len, stride, deep);
    status := NoError;
  }

  /** The size of a stream of so many lines, and of a buffer with room for its image. */
  ghost predicate Sized(lines: nat, stream: int, image: int, len: nat) {
    if lines == 0 then stream == 0 && image >= 0
    else stream >= 1 + len && image >= len && Sized(lines - 1, stream - (1 + len), image - len, len)
  }

  lemma OneLineLeft(left: nat, stream: int, image: int, len: nat)
    requires Sized(left, stream, image, len) && stream > 0
    ensures left > 0 && stream >= 1 + len && image >= len && Sized(left - 1, stream - (1 + len), image - len, len)
  {
  }

  lemma {:induction false} AreasAreSized(lines: nat, image: nat, len: nat)
    requires image >= Area(lines, len)
    ensures Sized(lines, Area(lines, 1 + len), image, len)
  {
    if lines > 0 {
      AreasAreSized(lines - 1, image - len, len);
    }
  }

  /** The result is the pixels so far followed by what the rest of the stream gives. */
  ghost predicate Remains(result: Outcome, done: seq<byte>, tail: seq<byte>, prior: seq<byte>,
                          len: nat, stride: nat, deep: bool)
  {
    && PriorIs(prior, done, len)
    && result == Prepend(done, Unfiltered(Lines(tail, len), prior, stride, deep))
  }

  /** One turn of the loop, with the row above taken from the image. */
  method NextLine(stride: nat, deep: bool, filtered: array<byte>, pos: nat, data: array<byte>, outpos: nat, len: nat,
                  ghost result: Outcome, ghost before: seq<byte>, ghost left: nat,
                  ghost done: seq<byte>, ghost tail: seq<byte>, ghost prior: seq<byte>)
    returns (known: bool, pos': nat, outpos': nat,
             ghost left': nat, ghost done': seq<byte>, ghost tail': seq<byte>, ghost prior': seq<byte>)
    requires data != filtered && Shape(len, stride, deep) && pos < filtered.Length && outpos <= data.Length
    requires Sized(left, filtered.Length - pos, data.Length - outpos, len)
    requires filtered[pos..] == tail && Holds(data[..], outpos, done, before)
    requires Remains(result, done, tail, prior, len, stride, deep)
    modifies data, filtered
    ensures pos < pos' <= filtered.Length && outpos' <= data.Length
    ensures !known ==> result == Outcome(false, done') && Holds(data[..], |done'|, done', before)
    ensures known ==> Sized(left', filtered.Length - pos', data.Length - outpos', len)
    ensures known ==> filtered[pos'..] == tail' && Holds(data[..], outpos', done', before)
    ensures known ==> Remains(result, done', tail', prior', len, stride, deep)
  {
    OneLineLeft(left, filtered.Length - pos, data.Length - outpos, len);
    ghost var image := data[..];
    known := LineAfter(stride, deep, filtered, pos, data, outpos, len, before, done, prior);
    pos', outpos', left' := pos + 1 + len, outpos + len, left - 1;
    done', tail', prior' := done, tail, prior;
    if known {
      KnownLine(result, before, image, data[..], outpos, done, tail, prior, len, stride, deep);
      prior' := LineRow(tail, prior, len, stride, deep);
      tail', done' := tail[1 + len..], done + prior';
    } else {
      LineStep(result, done, tail, prior, len, stride, deep);
    }
  }

  /** Rebuild one line below the row above it in the image, if there is one. */
  method LineAfter(stride: nat, deep: bool, filtered: array<byte>, pos: nat, data: array<byte>, outpos: nat, len: nat,
                   ghost before: seq<byte>, ghost done: seq<byte>, ghost prior: seq<byte>)
    returns (known: bool)
    requires data != filtered && Shape(len, stride, deep)
    requires pos + 1 + len <= filtered.Length && outpos + len <= data.Length
    requires Holds(data[..], outpos, done, before) && PriorIs(prior, done, len)
    modifies data, filtered
    ensures known <==> old(filtered[pos]) <= 4
    ensures known ==>
              data[..] == Placed(old(data[..]), outpos, LineRow(old(filtered[pos..]), prior, len, stride, deep))
    ensures !known ==> data[..] == old(data[..])
    ensures filtered[pos + 1 + len..] == old(filtered[pos + 1 + len..])
  {
    var prev := if outpos != 0 then Offset(outpos - len) else Null;
    PriorInImage(data[..], outpos, done, before, prior, prev, len);
    known := UnfilterLine(stride, deep, filtered, pos, data, outpos, prev, len);
  }

  lemma LinesStart(result: Outcome, stream: seq<byte>, before: seq<byte>, len: nat, stride: nat, deep: bool)
    requires result == Unfiltered(Lines(stream, len), [], stride, deep)
    ensures Remains(result, [], stream, [], len, stride, deep) && Holds(before, 0, [], before)
  {
    assert before[0..] == before;
  }

  lemma LinesEnd(result: Outcome, done: seq<byte>, prior: seq<byte>, len: nat, stride: nat, deep: bool)
    requires Remains(result, done, [], prior, len, stride, deep)
    ensures result == Outcome(true, done)
  {
  }

  /** The pixels so far, in front of what was in the buffer. */
  ghost predicate Holds(image: seq<byte>, outpos: nat, done: seq<byte>, before: seq<byte>) {
    outpos == |done| <= |before| && image == done + before[|done|..]
  }

  /** The last row of the pixels so far, if there is one. */
  ghost predicate PriorIs(prior: seq<byte>, done: seq<byte>, len: nat) {
    (done == [] && prior == []) || (len <= |done| && prior == done[|done| - len..])
  }

  lemma PriorInImage(image: seq<byte>, outpos: nat, done: seq<byte>, before: seq<byte>, prior: seq<byte>,
                     prev: PrevLine, len: nat)
    requires Holds(image, outpos, done, before) && PriorIs(prior, done, len)
    requires prev == if outpos != 0 then Offset(outpos - len) else Null
    ensures PrevFits(prev, outpos, len) && Prior(image, prev, len) == prior
  {
  }

  lemma KnownLine(result: Outcome, before: seq<byte>, image: seq<byte>, image': seq<byte>, outpos: nat,
                  done: seq<byte>, tail: seq<byte>, prior: seq<byte>, len: nat, stride: nat, deep: bool)
    requires Holds(image, outpos, done, before) && Remains(result, done, tail, prior, len, stride, deep)
    requires |tail| >= 1 + len && tail[0] <= 4 && outpos + len <= |image|
    requires image' == Placed(image, outpos, LineRow(tail, prior, len, stride, deep))
    ensures var row := LineRow(tail, prior, len, stride, deep);
            && Holds(image', outpos + len, done + row, before)
            && Remains(result, done + row, tail[1 + len..], row, len, stride, deep)
  {
    LineStep(result, done, tail, prior, len, stride, deep);
    HoldsMore(outpos, done, before, LineRow(tail, prior, len, stride, deep));
  }

  lemma HoldsMore(outpos: nat, done: seq<byte>, before: seq<byte>, row: seq<byte>)
    requires outpos == |done| && |done| + |row| <= |before|
    ensures Holds(Placed(done + before[|done|..], outpos, row), outpos + |row|, done + row, before)
  {
  }

  /** The row the next line decodes to. */
  function LineRow(tail: seq<byte>, prior: seq<byte>, len: nat, stride: nat, deep: bool): (row: seq<byte>)
    requires |tail| >= 1 + len && tail[0] <= 4
    ensures |row| == len
  {
    DecodeRow(PredictorOf(FilterOf(tail[0])), SwapIf(deep, tail[1..1 + len]), prior, stride)
  }

  lemma LineStep(result: Outcome, done: seq<byte>, tail: seq<byte>, prior: seq<byte>, len: nat, stride: nat, deep: bool)
    requires |tail| >= 1 + len
    requires result == Prepend(done, Unfiltered(Lines(tail, len), prior, stride, deep))
    ensures tail[0] > 4 ==> result == Outcome(false, done)
    ensures tail[0] <= 4 ==>
              var row := LineRow(tail, prior, len, stride, deep);
              result == Prepend(done + row, Unfiltered(Lines(tail[1 + len..], len), row, stride, deep))
  {
    assert Lines(tail, len)[1..] == Lines(tail[1 + len..], len);
  }

  lemma LineRowIs(cells: seq<byte>, pos: nat, ins: seq<byte>, prior: seq<byte>, len: nat, stride: nat, deep: bool)
    requires pos + 1 + len <= |cells| && ins == SwapIf(deep, cells[pos..][1..1 + len])
    ensures cells[pos] <= 4 ==> LineRow(cells[pos..], prior, len, stride, deep)
                                == DecodeRow(PredictorOf(FilterOf(cells[pos])), ins, prior, stride)
  {
  }

  lemma SwappedLine(cells: seq<byte>, after: seq<byte>, pos: nat, len: nat, deep: bool)
    requires pos + 1 + len <= |cells| && (deep ==> len % 2 == 0)
    requires after == if deep then Placed(cells, pos + 1, Swapped(cells[pos + 1..pos + 1 + len])) else cells
    ensures |after| == |cells| && after[pos + 1 + len..] == cells[pos + 1 + len..]
    ensures after[pos + 1..pos + 1 + len] == SwapIf(deep, cells[pos..][1..1 + len])
  {
    assert cells[pos..][1..1 + len] == cells[pos + 1..pos + 1 + len];
  }

  /** Swap the bytes of a line's samples if they are wide. */
  method SwapLine(filtered: array<byte>, pos: nat, len: nat, deep: bool)
    requires pos + 1 + len <= filtered.Length && (deep ==> len % 2 == 0)
    modifies filtered
    ensures filtered[pos + 1 + len..] == old(filtered[..])[pos + 1 + len..]
    ensures filtered[pos + 1..pos + 1 + len] == SwapIf(deep, old(filtered[..])[pos..][1..1 + len])
  {
    ghost var cells := filtered[..];
    if deep {
      SwapSamples(filtered, pos + 1, len);
    }
    SwappedLine(cells, filtered[..], pos, len, deep);
  }

  /** Rebuild one line: swap the bytes of its samples if they are wide, then undo its filter. */
  method UnfilterLine(stride: nat, deep: bool, filtered: array<byte>, pos: nat, data: array<byte>, at: nat,
                      prev: PrevLine, len: nat)
    returns (known: bool)
    requires filtered != data && pos + 1 + len <= filtered.Length && at + len <= data.Length
    requires PrevFits(prev, at, len) && Shape(len, stride, deep)
    modifies data, filtered
    ensures known <==> old(filtered[pos]) <= 4
    ensures known ==>
              data[..] == Placed(old(data[..]), at,
                                 LineRow(old(filtered[pos..]), Prior(old(data[..]), prev, len), len, stride, deep))
    ensures !known ==> data[..] == old(data[..])
    ensures filtered[pos + 1 + len..] == old(filtered[pos + 1 + len..])
  {
    ghost var cells := filtered[..];
    var filter := filtered[pos];
    SwapLine(filtered, pos, len, deep);
    ghost var prior := Prior(data[..], prev, len);
    LineRowIs(cells, pos, filtered[pos + 1..pos + 1 + len], prior, len, stride, deep);
    known := UnfilterRow(filter, stride, filtered, pos + 1, data, at, prev, len);
  }

  /** Rebuild one row, if its filter is known. */
  method UnfilterRow(filter: byte, stride: nat, filtered: array<byte>, pos: nat, data: array<byte>, at: nat,
                     prev: PrevLine, len: nat)
    returns (known: bool)
    requires filtered != data && pos + len <= filtered.Length && at + len <= data.Length && PrevFits(prev, at, len)
    requires stride > 0 || len == 0
    modifies data
    ensures known <==> filter <= 4
    ensures known ==> RowDone(PredictorOf(FilterOf(filter)), filtered[pos..pos + len],
                              Prior(old(data[..]), prev, len), stride, old(data[..]), data[..], at)
    ensures !known ==> data[..] == old(data[..])
  {
    known := true;
    if filter == 0 {
      CopyRow(NoFilter, filtered, pos, data, at, len, stride, Prior(data[..], prev, len));
    } else if filter == 1 {
      FilterSub(stride, filtered, pos, data, at, len, prev);
    } else if filter == 2 {
      FilterUp(stride, filtered, pos, data, at, prev, len);
    } else if filter == 3 {
      FilterAverage(stride, filtered, pos, data, at, prev, len);
    } else if filter == 4 {
      FilterPaeth(stride, filtered, pos, data, at, prev, len);
    } else {
      known := false;
    }
  }

  lemma RowShape(width: nat, colour: Colour, depth: nat)
    ensures var bpp := BytesPerPixel(colour, depth);
            width * bpp >= 0 && Shape(width * bpp, bpp, depth == 16)
  {
    var bpp := BytesPerPixel(colour, depth);
    if depth == 16 {
      Doubled(width, Channels(colour), bpp);
    }
  }

  lemma Doubled(width: nat, channels: nat, bpp: nat)
    requires bpp == channels * 2
    ensures bpp % 2 == 0 && width * bpp % 2 == 0
  {
    assert width * bpp == width * channels * 2;
  }

  lemma SizeIsArea(width: nat, height: nat, bpp: nat)
    ensures width * height * bpp + height == Area(height, 1 + width * bpp)
  {
    AreaIsProduct(height, width * bpp);
    assert width * height * bpp == height * (width * bpp);
  }

  /** Copy the rows into the stream, each behind a zero, so that row i starts at i * len + i. */
  method LayOut(filtered: array<byte>, data: array<byte>, height: nat, len: nat)
    requires filtered != data && Sized(height, filtered.Length, data.Length, len)
    modifies filtered
    ensures filtered[..] == PlainStream(data[..], height, len)
  {
    ghost var stream, rest, left := PlainStream(data[..], height, len), data[..], height;
    var at: nat, from: nat := 0, 0;
    for i := 0 to height
      invariant i + left == height && at <= filtered.Length && from <= data.Length
      invariant Sized(left, filtered.Length - at, data.Length - from, len)
      invariant rest == data[from..] && stream == filtered[..at] + PlainStream(rest, left, len)
    {
      OneLineLeft(left, filtered.Length - at, data.Length - from, len);
      LaidStep(stream, filtered[..at], rest, left, len);
      CopyLine(filtered, at, data, from, len);
      DropMore(data[..], from, len);
      at, from := at + 1 + len, from + len;
      rest, left := rest[len..], left - 1;
    }
  }

  lemma DropMore(data: seq<byte>, from: nat, len: nat)
    requires from + len <= |data|
    ensures data[from..][..len] == data[from..from + len] && data[from..][len..] == data[from + len..]
  {
  }

  lemma LaidStep(stream: seq<byte>, front: seq<byte>, rest: seq<byte>, left: nat, len: nat)
    requires left > 0 && |rest| >= len && stream == front + PlainStream(rest, left, len)
    ensures stream == front + [0] + rest[..len] + PlainStream(rest[len..], left - 1, len)
  {
  }

  method CopyLine(filtered: array<byte>, at: nat, data: array<byte>, from: nat, len: nat)
    requires filtered != data && at + 1 + len <= filtered.Length && from + len <= data.Length
    modifies filtered
    ensures filtered[..at + 1 + len] == old(filtered[..at]) + [0] + data[from..from + len]
  {
    filtered[at] := 0;
    forall i | 0 <= i < len {
      filtered[at + 1 + i] := data[from + i];
    }
  }
}
