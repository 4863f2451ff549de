/** One scanline: the forward filters of section 6 of RFC 2083 as the reference, and the decoders,
    which rebuild a row inside the image from its left part and the row above. */
module PngFilters {

  type byte = x: nat | x < 256

  // ----- the reference -----

  function Distance(x: int, y: int): (d: nat)
    ensures d == x - y || d == y - x
  {
    if x < y then y - x else x - y
  }

  /** Whichever of left, above and upper left is nearest to left + above - upper left, with ties
      going to the first of them. */
  ghost predicate IsPaeth(a: byte, b: byte, c: byte, r: byte) {
    var p := a + b - c;
    && (r == a || r == b || r == c)
    && Distance(p, r) <= Distance(p, a) && Distance(p, r) <= Distance(p, b) && Distance(p, r) <= Distance(p, c)
    && (Distance(p, a) == Distance(p, r) ==> r == a)
    && (Distance(p, b) == Distance(p, r) && r != a ==> r == b)
  }

  function Paeth(a: byte, b: byte, c: byte): byte {
    var p := a + b - c;
    var pa, pb, pc := Distance(p, a), Distance(p, b), Distance(p, c);
    if pa <= pb && pa <= pc then a else if pb <= pc then b else c
  }

  lemma PaethIsNearest(a: byte, b: byte, c: byte)
    ensures forall r: byte :: IsPaeth(a, b, c, r) <==> r == Paeth(a, b, c)
  {
  }

  datatype Filter = NoFilter | Sub | Up | Average | PaethFilter

  /** What a filter predicts from the bytes left, above and upper left. */
  function Predict(f: Filter, a: byte, b: byte, c: byte): byte {
    match f
    case NoFilter => 0
    case Sub => a
    case Up => b
    case Average => (a + b) / 2
    case PaethFilter => Paeth(a, b, c)
  }

  /** What a filter type of section 6 of RFC 2083 adds to a byte, from its number and the bytes left,
      above and upper left: nothing, left, above, their mean rounded down, or the nearest of the three. */
  ghost predicate PredictedBy(code: byte, a: byte, b: byte, c: byte, x: byte) {
    match code
    case 0 => x == 0
    case 1 => x == a
    case 2 => x == b
    case 3 => 2 * x <= a + b < 2 * x + 2
    case 4 => IsPaeth(a, b, c, x)
    case _ => false
  }

  /** The filter a code stands for. */
  function FilterOf(code: byte): Filter
    requires code <= 4
  {
    if code == 0 then NoFilter else if code == 1 then Sub else if code == 2 then Up
    else if code == 3 then Average else PaethFilter
  }

  lemma PredictIsPredicted(code: byte, a: byte, b: byte, c: byte, x: byte)
    requires code <= 4
    ensures PredictedBy(code, a, b, c, x) <==> x == Predict(FilterOf(code), a, b, c)
  {
    PaethIsNearest(a, b, c);
  }

  /** A prediction from three neighbours, whatever it may be. */
  type Predictor = (byte, byte, byte) -> byte

  function PredictorOf(f: Filter): Predictor {
    (a: byte, b: byte, c: byte) => Predict(f, a, b, c)
  }

  /** A byte of a row that reads as zero outside it; there is no row above the first. */
  function At(row: seq<byte>, i: int): byte {
    if 0 <= i < |row| then row[i] else 0
  }

  function Plus(x: byte, y: byte): byte {
    (x + y) % 256
  }

  function Minus(x: byte, y: byte): byte {
    (x + 256 - y) % 256
  }

  function Prediction(p: Predictor, row: seq<byte>, prior: seq<byte>, stride: nat, i: nat): byte {
    p(At(row, i - stride), At(prior, i), At(prior, i - stride))
  }

  /** The forward filter: each byte less its prediction. */
  function FilterRow(p: Predictor, raw: seq<byte>, prior: seq<byte>, stride: nat): (r: seq<byte>)
    ensures |r| == |raw|
    ensures forall i :: 0 <= i < |raw| ==> r[i] == Minus(raw[i], Prediction(p, raw, prior, stride, i))
  {
    FilterUpTo(p, raw, prior, stride, |raw|)
  }

  function FilterUpTo(p: Predictor, raw: seq<byte>, prior: seq<byte>, stride: nat, n: nat): (r: seq<byte>)
    requires n <= |raw|
    ensures |r| == n
    ensures forall i :: 0 <= i < n ==> r[i] == Minus(raw[i], Prediction(p, raw, prior, stride, i))
  {
    if n == 0 then []
    else FilterUpTo(p, raw, prior, stride, n - 1) + [Minus(raw[n - 1], Prediction(p, raw, prior, stride, n - 1))]
  }

  /** Rebuilding a row from left to right. */
  function DecodeRow(p: Predictor, ins: seq<byte>, prior: seq<byte>, stride: nat): (r: seq<byte>)
    ensures |r| == |ins|
  {
    if ins == [] then []
    else
      var n := |ins| - 1;
      var front := DecodeRow(p, ins[..n], prior, stride);
      front + [Plus(ins[n], Prediction(p, front, prior, stride, n))]
  }

  /** A row of which every byte is its filtered byte plus its prediction. */
  ghost predicate Rebuilds(p: Predictor, ins: seq<byte>, prior: seq<byte>, stride: nat, out: seq<byte>) {
    && |out| == |ins|
    && forall i :: 0 <= i < |ins| ==> out[i] == Plus(ins[i], Prediction(p, out, prior, stride, i))
  }

  /** Looking only left and up, a row is determined by what it is rebuilt from. */
  lemma {:induction false} RebuildingIsUnique(p: Predictor, ins: seq<byte>, prior: seq<byte>, stride: nat,
                                              out: seq<byte>)
    requires stride > 0 || ins == []
    ensures Rebuilds(p, ins, prior, stride, out) <==> out == DecodeRow(p, ins, prior, stride)
  {
    if ins != [] {
      var n := |ins| - 1;
      var row := DecodeRow(p, ins, prior, stride);
      var front := DecodeRow(p, ins[..n], prior, stride);
      assert row[..n] == front;
      RebuildingIsUnique(p, ins[..n], prior, stride, front);
      CutRebuilds(p, ins, prior, stride, row);
      if Rebuilds(p, ins, prior, stride, out) {
        CutRebuilds(p, ins, prior, stride, out);
        RebuildingIsUnique(p, ins[..n], prior, stride, out[..n]);
        assert out == out[..n] + [out[n]];
      }
    }
  }

  /** A byte is rebuilt from its filtered byte by adding, modulo 256, what filter `code` adds. */
  ghost predicate Adds(code: byte, a: byte, b: byte, c: byte, filtered: byte, raw: byte) {
    exists x: byte :: PredictedBy(code, a, b, c, x) && raw == (filtered + x) % 256
  }

  /** The law of filter number `code`, with bytes left of the row and above the first row zero. */
  ghost predicate LawfulByte(code: byte, ins: seq<byte>, prior: seq<byte>, stride: nat, row: seq<byte>, i: nat)
    requires i < |row| == |ins|
  {
    var left := if i >= stride then row[i - stride] else 0;
    var above := if i < |prior| then prior[i] else 0;
    var upperLeft := if stride <= i < |prior| + stride then prior[i - stride] else 0;
    Adds(code, left, above, upperLeft, ins[i], row[i])
  }

  ghost predicate RowLaw(code: byte, ins: seq<byte>, prior: seq<byte>, stride: nat, row: seq<byte>) {
    |row| == |ins| && forall i :: 0 <= i < |row| ==> LawfulByte(code, ins, prior, stride, row, i)
  }

  /** The decoded row is the one row that satisfies the law. */
  lemma LawfulRow(code: byte, ins: seq<byte>, prior: seq<byte>, stride: nat, row: seq<byte>)
    requires code <= 4 && (stride > 0 || ins == [])
    ensures RowLaw(code, ins, prior, stride, row) <==> row == DecodeRow(PredictorOf(FilterOf(code)), ins, prior, stride)
  {
    RebuildingIsUnique(PredictorOf(FilterOf(code)), ins, prior, stride, row);
    if |row| == |ins| {
      forall i | 0 <= i < |row|
        ensures LawfulByte(code, ins, prior, stride, row, i)
                <==> row[i] == Plus(ins[i], Prediction(PredictorOf(FilterOf(code)), row, prior, stride, i))
      {
        OneLawfulByte(code, ins, prior, stride, row, i);
      }
    }
  }

  lemma OneLawfulByte(code: byte, ins: seq<byte>, prior: seq<byte>, stride: nat, row: seq<byte>, i: nat)
    requires code <= 4 && stride > 0 && i < |row| == |ins|
    ensures LawfulByte(code, ins, prior, stride, row, i)
            <==> row[i] == Plus(ins[i], Prediction(PredictorOf(FilterOf(code)), row, prior, stride, i))
  {
    AddsIsPlus(code, At(row, i - stride), At(prior, i), At(prior, i - stride), ins[i], row[i]);
  }

  lemma AddsIsPlus(code: byte, a: byte, b: byte, c: byte, filtered: byte, raw: byte)
    requires code <= 4
    ensures Adds(code, a, b, c, filtered, raw) <==> raw == Plus(filtered, Predict(FilterOf(code), a, b, c))
  {
    forall x: byte ensures PredictedBy(code, a, b, c, x) <==> x == Predict(FilterOf(code), a, b, c) {
      PredictIsPredicted(code, a, b, c, x);
    }
    assert PredictedBy(code, a, b, c, Predict(FilterOf(code), a, b, c));
  }

  lemma CutRebuilds(p: Predictor, ins: seq<byte>, prior: seq<byte>, stride: nat, out: seq<byte>)
    requires stride > 0 && ins != [] && |out| == |ins|
    ensures var n := |ins| - 1;
            Rebuilds(p, ins, prior, stride, out)
            <==> Rebuilds(p, ins[..n], prior, stride, out[..n])
                 && out[n] == Plus(ins[n], Prediction(p, out[..n], prior, stride, n))
  {
    var n := |ins| - 1;
    forall i | 0 <= i <= n
      ensures Prediction(p, out, prior, stride, i) == Prediction(p, out[..n], prior, stride, i)
    {
    }
    assert forall i :: 0 <= i < n ==> out[..n][i] == out[i] && ins[..n][i] == ins[i];
  }

  lemma Cancel(x: byte, y: byte)
    ensures Plus(Minus(x, y), y) == x && Minus(Plus(x, y), y) == x
  {
  }

  /** The decoder inverts the forward filter, whichever the filter and the row above. */
  lemma DecodeInvertsFilter(p: Predictor, raw: seq<byte>, prior: seq<byte>, stride: nat)
    requires stride > 0 || raw == []
    ensures DecodeRow(p, FilterRow(p, raw, prior, stride), prior, stride) == raw
  {
    forall i | 0 <= i < |raw|
      ensures raw[i] == Plus(FilterRow(p, raw, prior, stride)[i], Prediction(p, raw, prior, stride, i))
    {
      Cancel(raw[i], Prediction(p, raw, prior, stride, i));
    }
    RebuildingIsUnique(p, FilterRow(p, raw, prior, stride), prior, stride, raw);
  }

  /** And the other way round: filtering what was rebuilt gives the filtered row back. */
  lemma FilterInvertsDecode(p: Predictor, ins: seq<byte>, prior: seq<byte>, stride: nat)
    requires stride > 0 || ins == []
    ensures FilterRow(p, DecodeRow(p, ins, prior, stride), prior, stride) == ins
  {
    var out := DecodeRow(p, ins, prior, stride);
    RebuildingIsUnique(p, ins, prior, stride, out);
    forall i | 0 <= i < |ins| ensures FilterRow(p, out, prior, stride)[i] == ins[i] {
      Cancel(ins[i], Prediction(p, out, prior, stride, i));
    }
  }

  // ----- swapping the bytes of 16-bit samples -----

  function Swapped(row: seq<byte>): (r: seq<byte>)
    requires |row| % 2 == 0
    ensures |r| == |row|
  {
    if row == [] then [] else [row[1], row[0]] + Swapped(row[2..])
  }

  function Partner(i: nat): nat {
    if i % 2 == 0 then i + 1 else i - 1
  }

  lemma {:induction false} SwappedAt(row: seq<byte>, i: nat)
    requires |row| % 2 == 0 && i < |row|
    ensures Partner(i) < |row| && Swapped(row)[i] == row[Partner(i)]
  {
    if i >= 2 {
      SwappedAt(row[2..], i - 2);
    }
  }

  lemma {:induction false} SwappedTwice(row: seq<byte>)
    requires |row| % 2 == 0
    ensures Swapped(Swapped(row)) == row
  {
    if row != [] {
      SwappedTwice(row[2..]);
      assert Swapped(row)[2..] == Swapped(row[2..]);
    }
  }

  ghost predicate IsSwap(row: seq<byte>, row': seq<byte>) {
    && |row'| == |row|
    && forall i :: 0 <= i < |row'| ==> Partner(i) < |row| && row'[i] == row[Partner(i)]
  }

  lemma SwappedIsSwap(row: seq<byte>)
    requires |row| % 2 == 0
    ensures IsSwap(row, Swapped(row))
  {
    forall i | 0 <= i < |row| ensures Partner(i) < |row| && Swapped(row)[i] == row[Partner(i)] {
      SwappedAt(row, i);
    }
  }

  lemma IsSwapIsSwapped(row: seq<byte>, row': seq<byte>)
    requires |row| % 2 == 0
    ensures IsSwap(row, row') <==> row' == Swapped(row)
  {
    SwappedIsSwap(row);
  }

  /** With an even stride a byte meets the same neighbours before and after the swap. */
  lemma PredictionOfSwapped(p: Predictor, row: seq<byte>, row': seq<byte>, prior: seq<byte>, prior': seq<byte>,
                            stride: nat, i: nat)
    requires IsSwap(row, row') && IsSwap(prior, prior')
    requires |row| % 2 == 0 && |prior| % 2 == 0 && stride % 2 == 0
    ensures Prediction(p, row', prior', stride, i) == Prediction(p, row, prior, stride, Partner(i))
  {
    AtOfSwapped(row, row', i, stride);
    AtOfSwapped(prior, prior', i, stride);
    AtOfSwapped(prior, prior', i, 0);
    SamePrediction(p, row', prior', i, row, prior, Partner(i), stride);
  }

  lemma SamePrediction(p: Predictor, row': seq<byte>, prior': seq<byte>, i': nat,
                       row: seq<byte>, prior: seq<byte>, i: nat, stride: nat)
    requires At(row', i' - stride) == At(row, i - stride)
    requires At(prior', i') == At(prior, i) && At(prior', i' - stride) == At(prior, i - stride)
    ensures Prediction(p, row', prior', stride, i') == Prediction(p, row, prior, stride, i)
  {
  }

  lemma AtOfSwapped(row: seq<byte>, row': seq<byte>, i: nat, stride: nat)
    requires IsSwap(row, row') && |row| % 2 == 0 && stride % 2 == 0
    ensures At(row', i - stride) == At(row, Partner(i) - stride)
  {
    PartnerKeepsSide(i, stride, |row|);
  }

  lemma PartnerKeepsSide(i: nat, stride: nat, len: nat)
    requires stride % 2 == 0 && len % 2 == 0
    ensures i < stride <==> Partner(i) < stride
    ensures i >= stride ==> Partner(i - stride) == Partner(i) - stride
    ensures i < stride + len <==> Partner(i) < stride + len
  {
  }

  /** Swapping before rebuilding is the same as swapping after it. */
  lemma SwapThenDecode(p: Predictor, ins: seq<byte>, prior: seq<byte>, stride: nat)
    requires |ins| % 2 == 0 && |prior| % 2 == 0 && stride % 2 == 0 && (stride > 0 || ins == [])
    ensures DecodeRow(p, Swapped(ins), Swapped(prior), stride) == Swapped(DecodeRow(p, ins, prior, stride))
  {
    var out := DecodeRow(p, ins, prior, stride);
    RebuildingIsUnique(p, ins, prior, stride, out);
    SwappedIsSwap(ins);
    SwappedIsSwap(out);
    SwappedIsSwap(prior);
    SwappedRebuilds(p, ins, Swapped(ins), prior, Swapped(prior), stride, out, Swapped(out));
    RebuildingIsUnique(p, Swapped(ins), Swapped(prior), stride, Swapped(out));
  }

  lemma SwappedRebuilds(p: Predictor, ins: seq<byte>, ins': seq<byte>, prior: seq<byte>, prior': seq<byte>,
                        stride: nat, out: seq<byte>, out': seq<byte>)
    requires Rebuilds(p, ins, prior, stride, out)
    requires IsSwap(ins, ins') && IsSwap(prior, prior') && IsSwap(out, out')
    requires |ins| % 2 == 0 && |prior| % 2 == 0 && stride % 2 == 0
    ensures Rebuilds(p, ins', prior', stride, out')
  {
    forall i | 0 <= i < |ins'|
      ensures out'[i] == Plus(ins'[i], Prediction(p, out', prior', stride, i))
    {
      PredictionOfSwapped(p, out, out', prior, prior', stride, i);
    }
  }
}
