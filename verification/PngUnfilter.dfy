/**
 * The scanline unfilter of the PNG analyser, and the filters of section 6 of
 * RFC 2083 that it has to undo. Pixels are one flat buffer, row after row.
 */
module PngUnfilter {

  type Byte = x: int | 0 <= x < 256

  /** `buffer[i] ?? 0` */
  function At(s: seq<Byte>, i: int): Byte {
    if 0 <= i < |s| then s[i] else 0
  }

  function Abs(x: int): nat {
    if x < 0 then -x else x
  }

  function Min(a: int, b: int): int {
    if a < b then a else b
  }

  // ----- what the code adds to a filtered byte

  function NearestNeighbour(left: Byte, up: Byte, upLeft: Byte): Byte {
    var estimate := left + up - upLeft;
    var toLeft, toUp, toUpLeft := Abs(estimate - left), Abs(estimate - up), Abs(estimate - upLeft);
    var smallest := Min(toLeft, Min(toUp, toUpLeft));
    if smallest == toLeft then left else if smallest == toUp then up else upLeft
  }

  function Prediction(filter: Byte, left: Byte, up: Byte, upLeft: Byte): Byte {
    if filter == 1 then left
    else if filter == 2 then up
    else if filter == 3 then (left + up) / 2
    else if filter == 4 then NearestNeighbour(left, up, upLeft)
    else 0
  }

  // ----- RFC 2083, sections 6.2 to 6.6

  datatype FilterType = None | Sub | Up | Average | Paeth

  function Code(f: FilterType): Byte {
    match f
    case None => 0
    case Sub => 1
    case Up => 2
    case Average => 3
    case Paeth => 4
  }

  /** Section 6.6: nearest of a, b, c to a + b - c, ties broken in the order a, b, c. */
  function PaethPredictor(a: Byte, b: Byte, c: Byte): Byte {
    var p := a + b - c;
    var pa, pb, pc := Abs(p - a), Abs(p - b), Abs(p - c);
    if pa <= pb && pa <= pc then a
    else if pb <= pc then b
    else c
  }

  function Distance(a: int, b: int): int {
    if a >= b then a - b else b - a
  }

  /** The predictor is the nearest of the three, the earlier one on a tie. */
  lemma PaethIsNearest(a: Byte, b: Byte, c: Byte)
    ensures var p, r := a + b - c, PaethPredictor(a, b, c);
            && (r == a || r == b || r == c)
            && Distance(p, r) <= Distance(p, a) && Distance(p, r) <= Distance(p, b) && Distance(p, r) <= Distance(p, c)
            && (r != a ==> Distance(p, r) < Distance(p, a))
            && (r != a && r != b ==> Distance(p, r) < Distance(p, b))
  {
  }

  function RfcPrediction(f: FilterType, a: Byte, b: Byte, c: Byte): Byte {
    match f
    case None => 0
    case Sub => a
    case Up => b
    case Average => (a + b) / 2
    case Paeth => PaethPredictor(a, b, c)
  }

  // ----- RFC 2083, section 6.1: the bytes a filter refers to, zero outside the image

  /** Raw(x): the byte at x of a scanline. */
  function RfcRaw(px: seq<Byte>, row: nat, x: int, stride: nat): Byte {
    if x < 0 then 0 else At(px, row * stride + x)
  }

  /** Prior(x): the byte at x of the scanline before. */
  function Prior(px: seq<Byte>, row: nat, x: int, stride: nat): Byte {
    if row == 0 || x < 0 then 0 else At(px, (row - 1) * stride + x)
  }

  /** The byte at x of a row is what sections 6.2 to 6.6 reconstruct for the filter type that precedes the row. */
  ghost predicate Reconstructed(raw: seq<Byte>, px: seq<Byte>, row: nat, x: nat, stride: nat, bpp: nat) {
    var start := row * (stride + 1);
    var filter: Byte := if start < |raw| then raw[start] else 0;
    var filtered: Byte := if start + 1 + x < |raw| then raw[start + 1 + x] else 0;
    var a, b, c := RfcRaw(px, row, x - bpp, stride), Prior(px, row, x, stride), Prior(px, row, x - bpp, stride);
    RfcRaw(px, row, x, stride) == Reconstruct(filter, filtered, a, b, c)
  }

  /** Sections 6.2 to 6.6 by the number of the filter type; other numbers change nothing, as in the source. */
  function Reconstruct(filter: Byte, filtered: Byte, a: Byte, b: Byte, c: Byte): Byte {
    match filter
    case 1 => (filtered + a) % 256
    case 2 => (filtered + b) % 256
    case 3 => (filtered + (a + b) / 2) % 256
    case 4 => (filtered + PaethPredictor(a, b, c)) % 256
    case _ => filtered
  }

  ghost predicate IsReconstruction(raw: seq<Byte>, px: seq<Byte>, height: nat, stride: nat, bpp: nat) {
    forall row: nat, x: nat :: row < height && x < stride ==> Reconstructed(raw, px, row, x, stride, bpp)
  }

  lemma PredictionsAgree(f: FilterType, a: Byte, b: Byte, c: Byte)
    ensures Prediction(Code(f), a, b, c) == RfcPrediction(f, a, b, c)
  {
  }

  lemma ReconstructsByPrediction(filter: Byte, filtered: Byte, a: Byte, b: Byte, c: Byte)
    ensures (filtered + Prediction(filter, a, b, c)) % 256 == Reconstruct(filter, filtered, a, b, c)
  {
    PredictionsAgree(Paeth, a, b, c);
  }

  // ----- positions

  /** `row * width`: where a row starts in a buffer of rows of that width. */
  function RowStart(row: nat, width: nat): nat {
    if row == 0 then 0 else RowStart(row - 1, width) + width
  }

  lemma {:induction false} RowStartIsProduct(row: nat, width: nat)
    ensures RowStart(row, width) == row * width
  {
    if row == 0 {
    } else {
      RowStartIsProduct(row - 1, width);
      assert (row - 1) * width + width == row * width;
    }
  }

  lemma {:induction false} RowsDoNotOverlap(row: nat, row': nat, width: nat)
    requires row < row'
    ensures RowStart(row, width) + width <= RowStart(row', width)
  {
    if row == row' - 1 {
    } else {
      RowsDoNotOverlap(row, row' - 1, width);
    }
  }

  function Pos(row: nat, index: nat, stride: nat): nat {
    RowStart(row, stride) + index
  }

  /** Every row of the filtered stream is preceded by its filter byte. */
  function RawPos(row: nat, stride: nat): nat {
    RowStart(row, stride + 1)
  }

  lemma PosIsOrdered(row: nat, index: nat, row': nat, index': nat, stride: nat)
    requires index < stride && index' < stride
    requires row < row' || (row == row' && index < index')
    ensures Pos(row, index, stride) < Pos(row', index', stride)
  {
    if row < row' {
      RowsDoNotOverlap(row, row', stride);
    }
  }

  function Left(px: seq<Byte>, row: nat, index: nat, stride: nat, channels: nat): Byte {
    if index >= channels then At(px, Pos(row, index - channels, stride)) else 0
  }

  function Above(px: seq<Byte>, row: nat, index: nat, stride: nat): Byte {
    if row > 0 then At(px, Pos(row - 1, index, stride)) else 0
  }

  function AboveLeft(px: seq<Byte>, row: nat, index: nat, stride: nat, channels: nat): Byte {
    if row > 0 && index >= channels then At(px, Pos(row - 1, index - channels, stride)) else 0
  }

  lemma NeighboursAgree(px: seq<Byte>, row: nat, index: nat, stride: nat, channels: nat)
    ensures At(px, Pos(row, index, stride)) == RfcRaw(px, row, index, stride)
    ensures Left(px, row, index, stride, channels) == RfcRaw(px, row, index - channels, stride)
    ensures Above(px, row, index, stride) == Prior(px, row, index, stride)
    ensures AboveLeft(px, row, index, stride, channels) == Prior(px, row, index - channels, stride)
  {
    RowStartIsProduct(row, stride);
    if row > 0 {
      RowStartIsProduct(row - 1, stride);
    }
  }

  lemma RestoredIsReconstructed(raw: seq<Byte>, px: seq<Byte>, row: nat, index: nat, stride: nat, channels: nat)
    ensures Restored(raw, px, row, index, stride, channels) <==> Reconstructed(raw, px, row, index, stride, channels)
  {
    RowStartIsProduct(row, stride + 1);
    NeighboursAgree(px, row, index, stride, channels);
    var start := row * (stride + 1);
    ReconstructsByPrediction(At(raw, start), At(raw, start + 1 + index), RfcRaw(px, row, index - channels, stride),
                             Prior(px, row, index, stride), Prior(px, row, index - channels, stride));
  }

  lemma RestoredIsReconstruction(raw: seq<Byte>, px: seq<Byte>, height: nat, stride: nat, channels: nat)
    ensures RestoredBefore(raw, px, height, 0, stride, channels) <==>
            IsReconstruction(raw, px, height, stride, channels)
  {
    forall row: nat, x: nat
      ensures Restored(raw, px, row, x, stride, channels) <==> Reconstructed(raw, px, row, x, stride, channels)
    {
      RestoredIsReconstructed(raw, px, row, x, stride, channels);
    }
  }

  /** The byte at (row, index) is the filtered byte plus the prediction made from its neighbours. */
  ghost predicate Restored(raw: seq<Byte>, px: seq<Byte>, row: nat, index: nat, stride: nat, channels: nat) {
    At(px, Pos(row, index, stride)) == Unfiltered(raw, px, row, index, stride, channels)
  }

  function Unfiltered(raw: seq<Byte>, px: seq<Byte>, row: nat, index: nat, stride: nat, channels: nat): Byte {
    (At(raw, RawPos(row, stride) + 1 + index)
     + Prediction(At(raw, RawPos(row, stride)),
                  Left(px, row, index, stride, channels),
                  Above(px, row, index, stride),
                  AboveLeft(px, row, index, stride, channels))) % 256
  }

  ghost predicate RestoredBefore(raw: seq<Byte>, px: seq<Byte>, row: nat, index: nat, stride: nat, channels: nat) {
    forall r: nat, i: nat :: i < stride && (r < row || (r == row && i < index)) ==>
                               Restored(raw, px, r, i, stride, channels)
  }

  /** Writing a byte leaves every byte before it restored. */
  lemma WriteKeepsRestored(raw: seq<Byte>, px: seq<Byte>, row: nat, index: nat, stride: nat, channels: nat, value: Byte)
    requires channels > 0 && index < stride && Pos(row, index, stride) < |px|
    requires RestoredBefore(raw, px, row, index, stride, channels)
    ensures RestoredBefore(raw, px[Pos(row, index, stride) := value], row, index, stride, channels)
  {
    var px' := px[Pos(row, index, stride) := value];
    forall r: nat, i: nat | i < stride && (r < row || (r == row && i < index))
      ensures Restored(raw, px', r, i, stride, channels)
    {
      assert Restored(raw, px, r, i, stride, channels);
      PosIsOrdered(r, i, row, index, stride);
      NeighboursComeFirst(px, px', r, i, stride, channels);
    }
  }

  /** The neighbours a prediction reads lie strictly before the byte it predicts. */
  lemma NeighboursComeFirst(px: seq<Byte>, px': seq<Byte>, row: nat, index: nat, stride: nat, channels: nat)
    requires channels > 0 && index < stride && |px| == |px'|
    requires forall k :: 0 <= k < Pos(row, index, stride) && k < |px| ==> px[k] == px'[k]
    ensures Left(px, row, index, stride, channels) == Left(px', row, index, stride, channels)
    ensures Above(px, row, index, stride) == Above(px', row, index, stride)
    ensures AboveLeft(px, row, index, stride, channels) == AboveLeft(px', row, index, stride, channels)
  {
    if index >= channels {
      PosIsOrdered(row, index - channels, row, index, stride);
    }
    if row > 0 {
      PosIsOrdered(row - 1, index, row, index, stride);
    }
    if row > 0 && index >= channels {
      PosIsOrdered(row - 1, index - channels, row, index, stride);
    }
  }

  /**
   * The unfilter loop. `raw` may be shorter than the image (missing bytes read as
   * zero) and a filter byte above 4 adds nothing, as in the source.
   */
  method Unfilter(raw: seq<Byte>, width: nat, height: nat, channels: nat) returns (pixels: array<Byte>)
    requires channels == 3 || channels == 4
    ensures pixels.Length == height * (width * channels)
    ensures IsReconstruction(raw, pixels[..], height, width * channels, channels)
    ensures forall px, filters :: |filters| == height && |px| == pixels.Length
                               && raw == Filtered(px, filters, width * channels, channels)
                               ==> pixels[..] == px
  {
    var stride := width * channels;
    RowStartIsProduct(height, stride);
    pixels := new Byte[RowStart(height, stride)](_ => 0);
    for row := 0 to height
      invariant RestoredBefore(raw, pixels[..], row, 0, stride, channels)
    {
      var filter := At(raw, RawPos(row, stride));
      for index := 0 to stride
        invariant RestoredBefore(raw, pixels[..], row, index, stride, channels)
      {
        NeighboursAreInside(row, index, height, stride, channels);
        ghost var before := pixels[..];
        var here := Pos(row, index, stride);
        var left := if index >= channels then pixels[Pos(row, index - channels, stride)] else 0;
        var up := if row > 0 then pixels[Pos(row - 1, index, stride)] else 0;
        var upLeft := if row > 0 && index >= channels then pixels[Pos(row - 1, index - channels, stride)] else 0;
        assert left == Left(before, row, index, stride, channels);
        assert up == Above(before, row, index, stride);
        assert upLeft == AboveLeft(before, row, index, stride, channels);
        var value := At(raw, RawPos(row, stride) + 1 + index);
        var restored := (value + Prediction(filter, left, up, upLeft)) % 256;
        assert restored == Unfiltered(raw, before, row, index, stride, channels);
        pixels[here] := restored;
        WriteRestores(raw, before, pixels[..], row, index, stride, channels);
      }
      NextRow(raw, pixels[..], row, stride, channels);
    }
    RestoredIsReconstruction(raw, pixels[..], height, stride, channels);
    UnfilterInvertsFiltering(raw, pixels[..], height, stride, channels);
  }

  lemma NeighboursAreInside(row: nat, index: nat, height: nat, stride: nat, channels: nat)
    requires row < height && index < stride
    ensures Pos(row, index, stride) < RowStart(height, stride)
    ensures index >= channels ==> Pos(row, index - channels, stride) < RowStart(height, stride)
    ensures row > 0 ==> Pos(row - 1, index, stride) < RowStart(height, stride)
    ensures row > 0 && index >= channels ==> Pos(row - 1, index - channels, stride) < RowStart(height, stride)
  {
    RowsDoNotOverlap(row, height, stride);
  }

  /** Writing the predicted byte extends the restored part by that byte. */
  lemma WriteRestores(raw: seq<Byte>, px: seq<Byte>, px': seq<Byte>, row: nat, index: nat, stride: nat, channels: nat)
    requires channels > 0 && index < stride && Pos(row, index, stride) < |px|
    requires RestoredBefore(raw, px, row, index, stride, channels)
    requires px' == px[Pos(row, index, stride) := Unfiltered(raw, px, row, index, stride, channels)]
    ensures RestoredBefore(raw, px', row, index + 1, stride, channels)
  {
    var value := Unfiltered(raw, px, row, index, stride, channels);
    WriteKeepsRestored(raw, px, row, index, stride, channels, value);
    NeighboursComeFirst(px, px', row, index, stride, channels);
    forall r: nat, i: nat | i < stride && (r < row || (r == row && i < index + 1))
      ensures Restored(raw, px', r, i, stride, channels)
    {
      assert (r == row && i == index) || r < row || (r == row && i < index);
    }
  }

  lemma NextRow(raw: seq<Byte>, px: seq<Byte>, row: nat, stride: nat, channels: nat)
    requires RestoredBefore(raw, px, row, stride, stride, channels)
    ensures RestoredBefore(raw, px, row + 1, 0, stride, channels)
  {
    forall r: nat, i: nat | i < stride && r < row + 1
      ensures Restored(raw, px, r, i, stride, channels)
    {
      assert r < row || (r == row && i < stride);
    }
  }

  lemma UnfilterInvertsFiltering(raw: seq<Byte>, out: seq<Byte>, height: nat, stride: nat, channels: nat)
    requires channels > 0 && |out| == height * stride && IsReconstruction(raw, out, height, stride, channels)
    ensures forall px, filters :: |filters| == height && |px| == |out|
                               && raw == Filtered(px, filters, stride, channels)
                               ==> out == px
  {
    forall px, filters | |filters| == height && |px| == |out| && raw == Filtered(px, filters, stride, channels)
      ensures out == px
    {
      RoundTrip(px, filters, out, stride, channels);
    }
  }

  // ----- filtering a whole image, one filter type per row

  function FilteredByte(px: seq<Byte>, f: FilterType, row: nat, x: nat, stride: nat, bpp: nat): Byte {
    (RfcRaw(px, row, x, stride)
     - RfcPrediction(f, RfcRaw(px, row, x - bpp, stride), Prior(px, row, x, stride),
                     Prior(px, row, x - bpp, stride))) % 256
  }

  function FilteredRow(px: seq<Byte>, f: FilterType, row: nat, stride: nat, channels: nat): seq<Byte> {
    [Code(f)] + seq(stride, index requires 0 <= index => FilteredByte(px, f, row, index, stride, channels))
  }

  function Filtered(px: seq<Byte>, filters: seq<FilterType>, stride: nat, channels: nat): seq<Byte> {
    if filters == [] then []
    else
      var last := |filters| - 1;
      Filtered(px, filters[..last], stride, channels) + FilteredRow(px, filters[last], last, stride, channels)
  }

  lemma {:induction false} FilteredIsLaidOut(px: seq<Byte>, filters: seq<FilterType>, stride: nat, channels: nat)
    ensures |Filtered(px, filters, stride, channels)| == RowStart(|filters|, stride + 1)
  {
    if filters == [] {
    } else {
      FilteredIsLaidOut(px, filters[..|filters| - 1], stride, channels);
    }
  }

  lemma {:induction false} FilteredAt(px: seq<Byte>, filters: seq<FilterType>, stride: nat, channels: nat, row: nat)
    requires row < |filters|
    ensures At(Filtered(px, filters, stride, channels), RawPos(row, stride)) == Code(filters[row])
    ensures forall index: nat :: index < stride ==>
              At(Filtered(px, filters, stride, channels), RawPos(row, stride) + 1 + index) ==
              FilteredByte(px, filters[row], row, index, stride, channels)
  {
    var last := |filters| - 1;
    var head := Filtered(px, filters[..last], stride, channels);
    FilteredIsLaidOut(px, filters[..last], stride, channels);
    if row < last {
      FilteredAt(px, filters[..last], stride, channels, row);
      RowsDoNotOverlap(row, last, stride + 1);
    } else {
      assert |head| == RawPos(row, stride);
    }
  }

  /** Whatever reconstructs a filtered image is that image. */
  lemma RoundTrip(px: seq<Byte>, filters: seq<FilterType>, out: seq<Byte>, stride: nat, channels: nat)
    requires channels > 0 && |px| == |filters| * stride == |out|
    requires IsReconstruction(Filtered(px, filters, stride, channels), out, |filters|, stride, channels)
    ensures out == px
  {
    RowStartIsProduct(|filters|, stride);
    RestoredIsReconstruction(Filtered(px, filters, stride, channels), out, |filters|, stride, channels);
    RowsAgree(px, filters, out, |filters|, stride, channels);
  }

  lemma {:induction false} RowsAgree(px: seq<Byte>, filters: seq<FilterType>, out: seq<Byte>, rows: nat, stride: nat,
                                     channels: nat)
    requires channels > 0 && rows <= |filters|
    requires |px| == RowStart(|filters|, stride) == |out|
    requires RestoredBefore(Filtered(px, filters, stride, channels), out, |filters|, 0, stride, channels)
    ensures RowStart(rows, stride) <= |px|
    ensures out[..RowStart(rows, stride)] == px[..RowStart(rows, stride)]
  {
    if rows < |filters| {
      RowsDoNotOverlap(rows, |filters|, stride);
    }
    if rows == 0 {
    } else {
      RowsAgree(px, filters, out, rows - 1, stride, channels);
      BytesAgree(px, filters, out, rows - 1, stride, stride, channels);
    }
  }

  lemma {:induction false} BytesAgree(px: seq<Byte>, filters: seq<FilterType>, out: seq<Byte>, row: nat, count: nat,
                                      stride: nat, channels: nat)
    requires channels > 0 && row < |filters| && count <= stride
    requires |px| == RowStart(|filters|, stride) == |out|
    requires RestoredBefore(Filtered(px, filters, stride, channels), out, |filters|, 0, stride, channels)
    requires RowStart(row, stride) + stride <= |px|
    requires out[..RowStart(row, stride)] == px[..RowStart(row, stride)]
    ensures out[..RowStart(row, stride) + count] == px[..RowStart(row, stride) + count]
  {
    if count == 0 {
    } else {
      var index := count - 1;
      var pos := Pos(row, index, stride);
      BytesAgree(px, filters, out, row, index, stride, channels);
      forall k | 0 <= k < pos ensures px[k] == out[k] {
        assert out[..pos][k] == px[..pos][k];
      }
      NeighboursComeFirst(px, out, row, index, stride, channels);
      FilteredAt(px, filters, stride, channels, row);
      assert Restored(Filtered(px, filters, stride, channels), out, row, index, stride, channels);
      UndoesFilter(px, filters[row], row, index, stride, channels);
      assert out[pos] == px[pos];
      assert out[..pos + 1] == out[..pos] + [out[pos]] && px[..pos + 1] == px[..pos] + [px[pos]];
    }
  }

  lemma UndoesFilter(px: seq<Byte>, f: FilterType, row: nat, index: nat, stride: nat, channels: nat)
    ensures (FilteredByte(px, f, row, index, stride, channels)
             + Prediction(Code(f), Left(px, row, index, stride, channels), Above(px, row, index, stride),
                          AboveLeft(px, row, index, stride, channels))) % 256
            == At(px, Pos(row, index, stride))
  {
    NeighboursAgree(px, row, index, stride, channels);
    PredictionsAgree(f, Left(px, row, index, stride, channels), Above(px, row, index, stride),
                     AboveLeft(px, row, index, stride, channels));
  }

  /** The rows before the last one are a stream of their own. */
  lemma HeadIsRestored(raw: seq<Byte>, px: seq<Byte>, filters: seq<FilterType>, stride: nat, channels: nat)
    requires filters != [] && |raw| == RawPos(|filters| - 1, stride) + (stride + 1)
    requires forall row: nat :: row < |filters| ==> At(raw, RawPos(row, stride)) == Code(filters[row])
    requires RestoredBefore(raw, px, |filters|, 0, stride, channels)
    ensures var last := |filters| - 1;
            var head := raw[..RawPos(last, stride)];
            && (forall row: nat :: row < last ==> At(head, RawPos(row, stride)) == Code(filters[..last][row]))
            && RestoredBefore(head, px, last, 0, stride, channels)
  {
    var last := |filters| - 1;
    var head := raw[..RawPos(last, stride)];
    forall row: nat, index: nat | row < last && index < stride
      ensures Restored(head, px, row, index, stride, channels)
    {
      assert Restored(raw, px, row, index, stride, channels);
      RowIsInside(raw, row, last, stride);
    }
    forall row: nat | row < last ensures At(head, RawPos(row, stride)) == Code(filters[..last][row]) {
      RowIsInside(raw, row, last, stride);
    }
  }

  /**
   * The other direction: filtering the unfiltered buffer with the stream's own
   * filter types gives back the stream.
   */
  lemma FilterAfterUnfilter(raw: seq<Byte>, px: seq<Byte>, filters: seq<FilterType>, stride: nat, channels: nat)
    requires |raw| == |filters| * (stride + 1)
    requires forall row: nat :: row < |filters| ==> RfcRaw(raw, row, 0, stride + 1) == Code(filters[row])
    requires IsReconstruction(raw, px, |filters|, stride, channels)
    ensures Filtered(px, filters, stride, channels) == raw
  {
    RowStartIsProduct(|filters|, stride + 1);
    forall row: nat | row < |filters| ensures At(raw, RawPos(row, stride)) == Code(filters[row]) {
      RowStartIsProduct(row, stride + 1);
      assert RfcRaw(raw, row, 0, stride + 1) == Code(filters[row]);
    }
    RestoredIsReconstruction(raw, px, |filters|, stride, channels);
    RefilteredRows(raw, px, filters, stride, channels);
  }

  lemma {:induction false} RefilteredRows(raw: seq<Byte>, px: seq<Byte>, filters: seq<FilterType>, stride: nat,
                                          channels: nat)
    requires |raw| == RowStart(|filters|, stride + 1)
    requires forall row: nat :: row < |filters| ==> At(raw, RawPos(row, stride)) == Code(filters[row])
    requires RestoredBefore(raw, px, |filters|, 0, stride, channels)
    ensures Filtered(px, filters, stride, channels) == raw
  {
    if filters != [] {
      var last := |filters| - 1;
      var start := RawPos(last, stride);
      assert start + (stride + 1) == |raw|;
      HeadIsRestored(raw, px, filters, stride, channels);
      RefilteredRows(raw[..start], px, filters[..last], stride, channels);
      LastRowIsRefiltered(raw, px, filters[last], last, stride, channels);
      assert raw == raw[..start] + raw[start..];
    } else {
      assert |raw| == 0;
    }
  }

  lemma LastRowIsRefiltered(raw: seq<Byte>, px: seq<Byte>, f: FilterType, row: nat, stride: nat, channels: nat)
    requires |raw| == RawPos(row, stride) + stride + 1
    requires At(raw, RawPos(row, stride)) == Code(f)
    requires forall index: nat :: index < stride ==> Restored(raw, px, row, index, stride, channels)
    ensures raw[RawPos(row, stride)..] == FilteredRow(px, f, row, stride, channels)
  {
    var start := RawPos(row, stride);
    var line, tail := raw[start..], FilteredRow(px, f, row, stride, channels);
    forall k | 0 <= k < stride + 1 ensures line[k] == tail[k] {
      if k > 0 {
        var index := k - 1;
        NeighboursAgree(px, row, index, stride, channels);
        assert Restored(raw, px, row, index, stride, channels);
        var left, up := Left(px, row, index, stride, channels), Above(px, row, index, stride);
        var upLeft := AboveLeft(px, row, index, stride, channels);
        PredictionsAgree(f, left, up, upLeft);
        UndoAddition(At(px, Pos(row, index, stride)), raw[start + 1 + index], RfcPrediction(f, left, up, upLeft));
      }
    }
  }

  lemma RowIsInside(raw: seq<Byte>, row: nat, rows: nat, stride: nat)
    requires row < rows && RawPos(rows, stride) <= |raw|
    ensures forall k: int {:trigger At(raw, k)} :: RawPos(row, stride) <= k <= RawPos(row, stride) + stride ==>
              At(raw[..RawPos(rows, stride)], k) == At(raw, k)
  {
    RowsDoNotOverlap(row, rows, stride + 1);
  }

  lemma UndoAddition(restored: Byte, filtered: Byte, prediction: Byte)
    requires restored == (filtered + prediction) % 256
    ensures (restored - prediction) % 256 == filtered
  {
  }
}
