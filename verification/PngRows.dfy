/** The five decoders of pnglite, working in the image next to the row above. */
module PngRows {
  import opened PngFilters

  /** Where the row above starts in the image. */
  datatype PrevLine = Null | Offset(at: nat)

  predicate PrevFits(prev: PrevLine, at: nat, len: nat) {
    prev.Offset? ==> prev.at + len <= at
  }

  function Prior(image: seq<byte>, prev: PrevLine, len: nat): seq<byte>
    requires prev.Offset? ==> prev.at + len <= |image|
  {
    if prev.Null? then [] else image[prev.at..prev.at + len]
  }

  /** The image with `row` in place of the bytes from `at` on. */
  function Placed(before: seq<byte>, at: nat, row: seq<byte>): seq<byte>
    requires at + |row| <= |before|
  {
    before[..at] + row + before[at + |row|..]
  }

  /** A whole row rebuilt in the image. */
  ghost predicate RowDone(p: Predictor, ins: seq<byte>, prior: seq<byte>, stride: nat,
                          before: seq<byte>, image: seq<byte>, at: nat)
  {
    at + |ins| <= |before| && image == Placed(before, at, DecodeRow(p, ins, prior, stride))
  }

  lemma PredictorIs(f: Filter, a: byte, b: byte, c: byte)
    ensures PredictorOf(f)(a, b, c) == Predict(f, a, b, c)
  {
  }

  function LeftIn(image: seq<byte>, at: nat, i: nat, stride: nat): byte
    requires stride > 0 && at + i < |image|
  {
    if i >= stride then image[at + i - stride] else 0
  }

  function AboveIn(image: seq<byte>, prev: PrevLine, i: nat): byte
    requires prev.Offset? ==> prev.at + i < |image|
  {
    if prev.Offset? then image[prev.at + i] else 0
  }

  function UpperLeftIn(image: seq<byte>, prev: PrevLine, i: nat, stride: nat): byte
    requires prev.Offset? ==> prev.at + i < |image|
  {
    if prev.Offset? && i >= stride then image[prev.at + i - stride] else 0
  }

  /** The first `done` bytes of the row at `at` are rebuilt from their neighbours in the image and
      nothing else has changed. */
  ghost predicate Filled(f: Filter, ins: seq<byte>, prev: PrevLine, stride: nat,
                         before: seq<byte>, image: seq<byte>, at: nat, done: nat)
  {
    && done <= |ins| && at + |ins| <= |before| == |image| && PrevFits(prev, at, |ins|)
    && (forall k :: 0 <= k < |image| && (k < at || at + done <= k) ==> image[k] == before[k])
    && (stride > 0 || ins == [])
    && (forall k :: at <= k < at + done ==> image[k] == Filling(f, ins, prev, stride, image, at, k - at))
  }

  function Filling(f: Filter, ins: seq<byte>, prev: PrevLine, stride: nat, image: seq<byte>, at: nat, i: nat): byte
    requires i < |ins| && at + |ins| <= |image| && PrevFits(prev, at, |ins|) && stride > 0
  {
    Plus(ins[i], Predict(f, LeftIn(image, at, i, stride), AboveIn(image, prev, i), UpperLeftIn(image, prev, i, stride)))
  }

  /** Storing the filtered byte plus the prediction rebuilds one byte more. */
  lemma FilledStep(f: Filter, ins: seq<byte>, prev: PrevLine, stride: nat,
                   before: seq<byte>, image: seq<byte>, at: nat, i: nat, value: byte)
    requires Filled(f, ins, prev, stride, before, image, at, i) && i < |ins|
    requires value == Filling(f, ins, prev, stride, image, at, i)
    ensures Filled(f, ins, prev, stride, before, image[at + i := value], at, i + 1)
  {
    var next := image[at + i := value];
    forall k | at <= k <= at + i ensures next[k] == Filling(f, ins, prev, stride, next, at, k - at) {
      assert Filling(f, ins, prev, stride, next, at, k - at) == Filling(f, ins, prev, stride, image, at, k - at);
    }
  }

  lemma FilledRow(f: Filter, ins: seq<byte>, prev: PrevLine, stride: nat, before: seq<byte>, image: seq<byte>, at: nat)
    requires Filled(f, ins, prev, stride, before, image, at, |ins|)
    ensures RowDone(PredictorOf(f), ins, Prior(before, prev, |ins|), stride, before, image, at)
  {
    var row, prior := image[at..at + |ins|], Prior(before, prev, |ins|);
    forall i | 0 <= i < |ins|
      ensures row[i] == Plus(ins[i], Prediction(PredictorOf(f), row, prior, stride, i))
    {
      assert image[at + i] == Filling(f, ins, prev, stride, image, at, i);
      Neighbours(ins, prev, stride, before, image, at, i);
      PredictorIs(f, At(row, i - stride), At(prior, i), At(prior, i - stride));
    }
    RebuildingIsUnique(PredictorOf(f), ins, prior, stride, row);
    RestUnchanged(before, image, at, |ins|);
  }

  /** So the row satisfies the law of its filter, byte for byte. */
  lemma RowIsLawful(code: byte, ins: seq<byte>, prior: seq<byte>, stride: nat,
                    before: seq<byte>, image: seq<byte>, at: nat)
    requires code <= 4 && (stride > 0 || ins == [])
    requires RowDone(PredictorOf(FilterOf(code)), ins, prior, stride, before, image, at)
    ensures RowLaw(code, ins, prior, stride, image[at..at + |ins|])
  {
    var row := DecodeRow(PredictorOf(FilterOf(code)), ins, prior, stride);
    assert image[at..at + |ins|] == row;
    LawfulRow(code, ins, prior, stride, row);
  }

  lemma RestUnchanged(before: seq<byte>, image: seq<byte>, at: nat, len: nat)
    requires at + len <= |before| == |image|
    requires forall k :: 0 <= k < |image| && (k < at || at + len <= k) ==> image[k] == before[k]
    ensures image == Placed(before, at, image[at..at + len])
  {
  }

  /** The neighbours found in the image are those of the row and of the row above. */
  lemma Neighbours(ins: seq<byte>, prev: PrevLine, stride: nat, before: seq<byte>, image: seq<byte>, at: nat, i: nat)
    requires at + |ins| <= |before| == |image| && PrevFits(prev, at, |ins|) && stride > 0 && i < |ins|
    requires forall k :: 0 <= k < at ==> image[k] == before[k]
    ensures var row, prior := image[at..at + |ins|], Prior(before, prev, |ins|);
            && At(row, i - stride) == LeftIn(image, at, i, stride)
            && At(prior, i) == AboveIn(image, prev, i)
            && At(prior, i - stride) == UpperLeftIn(image, prev, i, stride)
  {
  }

  /** Add left. */
  method FilterSub(stride: nat, filtered: array<byte>, pos: nat, data: array<byte>, at: nat, len: nat,
                   ghost prev: PrevLine)
    requires filtered != data && pos + len <= filtered.Length && at + len <= data.Length && PrevFits(prev, at, len)
    requires stride > 0 || len == 0
    modifies data
    ensures RowDone(PredictorOf(Sub), filtered[pos..pos + len], Prior(old(data[..]), prev, len), stride,
                    old(data[..]), data[..], at)
    ensures RowLaw(1, filtered[pos..pos + len], Prior(old(data[..]), prev, len), stride, data[at..at + len])
  {
    ghost var ins, before := filtered[pos..pos + len], data[..];
    var i := 0;
    var a: byte := 0;
    while i < len
      invariant Filled(Sub, ins, prev, stride, before, data[..], at, i)
      invariant filtered[pos..pos + len] == ins
      invariant i <= stride ==> a == 0
    {
      if i >= stride {
        a := data[at + i - stride];
      }
      ghost var image, value := data[..], Plus(filtered[pos + i], a);
      FilledStep(Sub, ins, prev, stride, before, image, at, i, value);
      data[at + i] := Plus(filtered[pos + i], a);
      assert data[..] == image[at + i := value];
      i := i + 1;
    }
    FilledRow(Sub, ins, prev, stride, before, data[..], at);
    RowIsLawful(1, ins, Prior(before, prev, len), stride, before, data[..], at);
  }

  /** Copy a row, where the prediction is zero throughout. */
  method CopyRow(f: Filter, filtered: array<byte>, pos: nat, data: array<byte>, at: nat, len: nat,
                 ghost stride: nat, ghost prior: seq<byte>)
    requires filtered != data && pos + len <= filtered.Length && at + len <= data.Length
    requires stride > 0 || len == 0
    requires f == NoFilter || (f == Up && prior == [])
    modifies data
    ensures RowDone(PredictorOf(f), filtered[pos..pos + len], prior, stride, old(data[..]), data[..], at)
  {
    ghost var ins, before := filtered[pos..pos + len], data[..];
    forall i | 0 <= i < len {
      data[at + i] := filtered[pos + i];
    }
    CopyRebuilds(f, ins, prior, stride);
    assert filtered[pos..pos + len] == ins;
    assert data[..] == before[..at] + ins + before[at + len..];
  }

  lemma CopyRebuilds(f: Filter, ins: seq<byte>, prior: seq<byte>, stride: nat)
    requires (stride > 0 || ins == []) && (f == NoFilter || (f == Up && prior == []))
    ensures DecodeRow(PredictorOf(f), ins, prior, stride) == ins
  {
    forall i | 0 <= i < |ins|
      ensures ins[i] == Plus(ins[i], Prediction(PredictorOf(f), ins, prior, stride, i))
    {
      PredictorIs(f, At(ins, i - stride), At(prior, i), At(prior, i - stride));
    }
    RebuildingIsUnique(PredictorOf(f), ins, prior, stride, ins);
  }

  /** Add above. */
  method FilterUp(ghost stride: nat, filtered: array<byte>, pos: nat, data: array<byte>, at: nat,
                  prev: PrevLine, len: nat)
    requires filtered != data && pos + len <= filtered.Length && at + len <= data.Length && PrevFits(prev, at, len)
    requires stride > 0 || len == 0
    modifies data
    ensures RowDone(PredictorOf(Up), filtered[pos..pos + len], Prior(old(data[..]), prev, len), stride,
                    old(data[..]), data[..], at)
    ensures RowLaw(2, filtered[pos..pos + len], Prior(old(data[..]), prev, len), stride, data[at..at + len])
  {
    ghost var ins, before := filtered[pos..pos + len], data[..];
    if prev.Null? {
      CopyRow(Up, filtered, pos, data, at, len, stride, []);
      RowIsLawful(2, ins, [], stride, before, data[..], at);
      return;
    }
    var i := 0;
    while i < len
      invariant Filled(Up, ins, prev, stride, before, data[..], at, i)
      invariant filtered[pos..pos + len] == ins
    {
      ghost var image, value := data[..], Plus(filtered[pos + i], data[prev.at + i]);
      FilledStep(Up, ins, prev, stride, before, image, at, i, value);
      data[at + i] := Plus(filtered[pos + i], data[prev.at + i]);
      assert data[..] == image[at + i := value];
      i := i + 1;
    }
    FilledRow(Up, ins, prev, stride, before, data[..], at);
    RowIsLawful(2, ins, Prior(before, prev, len), stride, before, data[..], at);
  }

  /** Add the mean of left and above, rounded down. */
  method FilterAverage(stride: nat, filtered: array<byte>, pos: nat, data: array<byte>, at: nat,
                       prev: PrevLine, len: nat)
    requires filtered != data && pos + len <= filtered.Length && at + len <= data.Length && PrevFits(prev, at, len)
    requires stride > 0 || len == 0
    modifies data
    ensures RowDone(PredictorOf(Average), filtered[pos..pos + len], Prior(old(data[..]), prev, len), stride,
                    old(data[..]), data[..], at)
    ensures RowLaw(3, filtered[pos..pos + len], Prior(old(data[..]), prev, len), stride, data[at..at + len])
  {
    ghost var ins, before := filtered[pos..pos + len], data[..];
    var i := 0;
    var a: byte, b: byte := 0, 0;
    while i < len
      invariant Filled(Average, ins, prev, stride, before, data[..], at, i)
      invariant filtered[pos..pos + len] == ins
      invariant (i <= stride ==> a == 0) && (prev.Null? ==> b == 0)
    {
      if prev.Offset? {
        b := data[prev.at + i];
      }
      if i >= stride {
        a := data[at + i - stride];
      }
      ghost var image, value := data[..], Plus(filtered[pos + i], (a + b) / 2);
      FilledStep(Average, ins, prev, stride, before, image, at, i, value);
      data[at + i] := Plus(filtered[pos + i], (a + b) / 2);
      assert data[..] == image[at + i := value];
      i := i + 1;
    }
    FilledRow(Average, ins, prev, stride, before, data[..], at);
    RowIsLawful(3, ins, Prior(before, prev, len), stride, before, data[..], at);
  }

  /** Add the nearest of left, above and upper left. */
  method FilterPaeth(stride: nat, filtered: array<byte>, pos: nat, data: array<byte>, at: nat,
                     prev: PrevLine, len: nat)
    requires filtered != data && pos + len <= filtered.Length && at + len <= data.Length && PrevFits(prev, at, len)
    requires stride > 0 || len == 0
    modifies data
    ensures RowDone(PredictorOf(PaethFilter), filtered[pos..pos + len], Prior(old(data[..]), prev, len), stride,
                    old(data[..]), data[..], at)
    ensures RowLaw(4, filtered[pos..pos + len], Prior(old(data[..]), prev, len), stride, data[at..at + len])
  {
    ghost var ins, before := filtered[pos..pos + len], data[..];
    var i := 0;
    while i < len
      invariant Filled(PaethFilter, ins, prev, stride, before, data[..], at, i)
      invariant filtered[pos..pos + len] == ins
    {
      var a, b, c := Around(stride, data, at, prev, i);
      ghost var image, value := data[..], Plus(filtered[pos + i], Paeth(a, b, c));
      FilledStep(PaethFilter, ins, prev, stride, before, image, at, i, value);
      data[at + i] := Plus(filtered[pos + i], Paeth(a, b, c));
      assert data[..] == image[at + i := value];
      i := i + 1;
    }
    FilledRow(PaethFilter, ins, prev, stride, before, data[..], at);
    RowIsLawful(4, ins, Prior(before, prev, len), stride, before, data[..], at);
  }

  /** The bytes left, above and upper left, zero where there are none. */
  method Around(stride: nat, data: array<byte>, at: nat, prev: PrevLine, i: nat) returns (a: byte, b: byte, c: byte)
    requires stride > 0 && at + i < data.Length && (prev.Offset? ==> prev.at + i < data.Length)
    ensures a == LeftIn(data[..], at, i, stride) && b == AboveIn(data[..], prev, i)
    ensures c == UpperLeftIn(data[..], prev, i, stride)
  {
    if prev.Offset? && i >= stride {
      a := data[at + i - stride];
      b := data[prev.at + i];
      c := data[prev.at + i - stride];
    } else {
      b := if prev.Offset? then data[prev.at + i] else 0;
      a := if i >= stride then data[at + i - stride] else 0;
      c := 0;
    }
  }

  /** Swap the bytes of each 16-bit sample by storing the big-endian value little-endian. */
  method SwapSamples(filtered: array<byte>, pos: nat, len: nat)
    requires pos + len <= filtered.Length && len % 2 == 0
    modifies filtered
    ensures filtered[..] == Placed(old(filtered[..]), pos, Swapped(old(filtered[..])[pos..pos + len]))
  {
    ghost var before := filtered[..];
    var i := 0;
    while i < len
      invariant i % 2 == 0
      invariant SwappedUpTo(before, filtered[..], pos, len, i)
    {
      SwapStep(before, filtered[..], pos, len, i);
      StoreLittleEndian(filtered, pos + i);
      i := i + 2;
    }
    SwapEnds(before, filtered[..], pos, len);
  }

  /** Read a sample as big-endian and store it little-endian. */
  method StoreLittleEndian(filtered: array<byte>, at: nat)
    requires at + 1 < filtered.Length
    modifies filtered
    ensures filtered[..] == Exchanged(old(filtered[..]), at)
  {
    var high: byte, low: byte := filtered[at], filtered[at + 1];
    var sample := high * 256 + low;
    SampleBytes(high, low);
    filtered[at] := sample % 256;
    filtered[at + 1] := sample / 256;
  }

  function Exchanged(cells: seq<byte>, at: nat): seq<byte>
    requires at + 1 < |cells|
  {
    cells[at := cells[at + 1]][at + 1 := cells[at]]
  }

  ghost predicate SwappedUpTo(before: seq<byte>, cells: seq<byte>, pos: nat, len: nat, done: nat) {
    && done <= len && pos + len <= |before| == |cells| && len % 2 == 0 && done % 2 == 0
    && (forall k :: 0 <= k < |cells| && (k < pos || pos + done <= k) ==> cells[k] == before[k])
    && (forall j :: 0 <= j < done ==> Partner(j) < done && cells[pos + j] == before[pos + Partner(j)])
  }

  lemma SwapStep(before: seq<byte>, cells: seq<byte>, pos: nat, len: nat, i: nat)
    requires SwappedUpTo(before, cells, pos, len, i) && i < len
    ensures SwappedUpTo(before, Exchanged(cells, pos + i), pos, len, i + 2)
  {
    var next := Exchanged(cells, pos + i);
    assert Partner(i) == i + 1 && Partner(i + 1) == i;
    assert next[pos + i] == before[pos + Partner(i)] && next[pos + i + 1] == before[pos + Partner(i + 1)];
    forall j | 0 <= j < i + 2
      ensures Partner(j) < i + 2 && next[pos + j] == before[pos + Partner(j)]
    {
      if j < i {
        assert cells[pos + j] == next[pos + j];
      }
    }
    forall k | 0 <= k < |next| && (k < pos || pos + i + 2 <= k) ensures next[k] == before[k] {
      assert next[k] == cells[k];
    }
    assert (i + 2) % 2 == 0 && i + 2 <= len;
  }

  lemma SwapEnds(before: seq<byte>, cells: seq<byte>, pos: nat, len: nat)
    requires SwappedUpTo(before, cells, pos, len, len)
    ensures cells == Placed(before, pos, Swapped(before[pos..pos + len]))
  {
    RestUnchanged(before, cells, pos, len);
    var row, row' := before[pos..pos + len], cells[pos..pos + len];
    forall i | 0 <= i < len ensures Partner(i) < len && row'[i] == row[Partner(i)] {
      assert cells[pos + i] == before[pos + Partner(i)];
    }
    IsSwapIsSwapped(row, row');
  }

  lemma SampleBytes(high: byte, low: byte)
    ensures (high * 256 + low) / 256 == high && (high * 256 + low) % 256 == low
  {
  }
}
