/** From a decoded source raster to the square elevation raster a site ships: the box of valid data,
    the square crop, bilinear resampling, the no-data guard and the void fill, composed. */
module TerrainBake {
  import opened Arithmetic
  import opened Wrappers
  import opened VoidFill

  // ----- The box of valid data -----

  /** Inclusive corners. */
  datatype Box = Box(x0: nat, y0: nat, x1: nat, y1: nat)

  /** A sample of a raster `w` wide; outside the buffer there is none. */
  function Sampled(s: seq<Sample>, w: nat, x: nat, y: nat): Sample {
    if y * w + x < |s| then s[y * w + x] else Void
  }

  predicate RowHas(s: seq<Sample>, w: nat, y: nat) {
    exists x: nat :: x < w && Sampled(s, w, x, y).Height?
  }

  predicate ColHas(s: seq<Sample>, w: nat, h: nat, x: nat) {
    exists y: nat :: y < h && Sampled(s, w, x, y).Height?
  }

  function First(p: nat -> bool, lo: nat, hi: nat): (r: Option<nat>)
    requires lo <= hi
    ensures r.Some? ==> lo <= r.value < hi && p(r.value) && forall i :: lo <= i < r.value ==> !p(i)
    ensures r.None? ==> forall i :: lo <= i < hi ==> !p(i)
    decreases hi - lo
  {
    if lo == hi then None else if p(lo) then Some(lo) else First(p, lo + 1, hi)
  }

  function Last(p: nat -> bool, hi: nat): (r: Option<nat>)
    ensures r.Some? ==> r.value < hi && p(r.value) && forall i :: r.value < i < hi ==> !p(i)
    ensures r.None? ==> forall i: nat :: i < hi ==> !p(i)
  {
    if hi == 0 then None else if p(hi - 1) then Some(hi - 1) else Last(p, hi - 1)
  }

  /** `valid_data_bounds`. A buffer that is no raster of this size (a colour source keeps its data
      elsewhere) is bounded by the raster itself. */
  function ValidDataBounds(s: seq<Sample>, w: nat, h: nat): Option<Box> {
    if |s| != w * h then
      if w == 0 || h == 0 then None else Some(Box(0, 0, w - 1, h - 1))
    else
      var rowHas := (y: nat) => RowHas(s, w, y);
      var colHas := (x: nat) => ColHas(s, w, h, x);
      match (First(rowHas, 0, h), Last(rowHas, h), First(colHas, 0, w), Last(colHas, w))
      case (Some(y0), Some(y1), Some(x0), Some(x1)) => Some(Box(x0, y0, x1, y1))
      case _ => None
  }

  ghost predicate Holds(b: Box, x: nat, y: nat) {
    b.x0 <= x <= b.x1 && b.y0 <= y <= b.y1
  }

  ghost predicate HoldsAll(b: Box, s: seq<Sample>, w: nat, h: nat) {
    forall x: nat, y: nat :: x < w && y < h && Sampled(s, w, x, y).Height? ==> Holds(b, x, y)
  }

  /** Rows and columns the box ends at hold a measurement, those outside it hold none. */
  ghost predicate EdgesOf(s: seq<Sample>, w: nat, h: nat, b: Box) {
    && b.x1 < w && b.y1 < h
    && RowHas(s, w, b.y0) && RowHas(s, w, b.y1) && ColHas(s, w, h, b.x0) && ColHas(s, w, h, b.x1)
    && (forall y: nat :: y < h && RowHas(s, w, y) ==> b.y0 <= y <= b.y1)
    && (forall x: nat :: x < w && ColHas(s, w, h, x) ==> b.x0 <= x <= b.x1)
  }

  lemma BoundsHaveEdges(s: seq<Sample>, w: nat, h: nat)
    requires |s| == w * h
    ensures ValidDataBounds(s, w, h).Some? ==> EdgesOf(s, w, h, ValidDataBounds(s, w, h).value)
    ensures ValidDataBounds(s, w, h).None? ==>
      (forall y: nat :: y < h ==> !RowHas(s, w, y)) || (forall x: nat :: x < w ==> !ColHas(s, w, h, x))
  {
    hide RowHas, ColHas;
    var rowHas := (y: nat) => RowHas(s, w, y);
    var colHas := (x: nat) => ColHas(s, w, h, x);
    assert forall y: nat :: rowHas(y) == RowHas(s, w, y);
    assert forall x: nat :: colHas(x) == ColHas(s, w, h, x);
  }

  lemma MeasurementShows(s: seq<Sample>, w: nat, h: nat, x: nat, y: nat)
    requires x < w && y < h && Sampled(s, w, x, y).Height?
    ensures RowHas(s, w, y) && ColHas(s, w, h, x)
  {
  }

  lemma EdgesAreTight(s: seq<Sample>, w: nat, h: nat, b: Box, c: Box)
    requires EdgesOf(s, w, h, b) && HoldsAll(c, s, w, h)
    ensures c.x0 <= b.x0 && b.x1 <= c.x1 && c.y0 <= b.y0 && b.y1 <= c.y1
  {
    hide Sampled;
    var tx: nat :| tx < w && Sampled(s, w, tx, b.y0).Height?;
    var bx: nat :| bx < w && Sampled(s, w, bx, b.y1).Height?;
    var ly: nat :| ly < h && Sampled(s, w, b.x0, ly).Height?;
    var ry: nat :| ry < h && Sampled(s, w, b.x1, ry).Height?;
    assert Holds(c, tx, b.y0) && Holds(c, bx, b.y1) && Holds(c, b.x0, ly) && Holds(c, b.x1, ry);
  }

  ghost predicate AnyMeasured(s: seq<Sample>, w: nat, h: nat) {
    exists x: nat, y: nat :: x < w && y < h && Sampled(s, w, x, y).Height?
  }

  /** The box is the smallest one that holds every measurement; there is none exactly when there is no
      measurement. */
  lemma BoundsAreTight(s: seq<Sample>, w: nat, h: nat)
    requires |s| == w * h
    ensures ValidDataBounds(s, w, h).Some? <==> AnyMeasured(s, w, h)
    ensures ValidDataBounds(s, w, h).Some? ==>
      var b := ValidDataBounds(s, w, h).value;
      && b.x1 < w && b.y1 < h && HoldsAll(b, s, w, h)
      && forall c: Box :: HoldsAll(c, s, w, h) ==>
           c.x0 <= b.x0 && b.x1 <= c.x1 && c.y0 <= b.y0 && b.y1 <= c.y1
  {
    hide Sampled, ValidDataBounds, HoldsAll;
    BoundsHaveEdges(s, w, h);
    if ValidDataBounds(s, w, h).Some? {
      var b := ValidDataBounds(s, w, h).value;
      BoundsHoldAll(s, w, h, b);
      forall c: Box | HoldsAll(c, s, w, h)
        ensures c.x0 <= b.x0 && b.x1 <= c.x1 && c.y0 <= b.y0 && b.y1 <= c.y1
      {
        EdgesAreTight(s, w, h, b, c);
      }
    } else {
      forall x: nat, y: nat | x < w && y < h && Sampled(s, w, x, y).Height? ensures false {
        MeasurementShows(s, w, h, x, y);
      }
    }
  }

  lemma BoundsHoldAll(s: seq<Sample>, w: nat, h: nat, b: Box)
    requires EdgesOf(s, w, h, b)
    ensures HoldsAll(b, s, w, h)
    ensures AnyMeasured(s, w, h)
  {
    hide Sampled;
    forall x: nat, y: nat | x < w && y < h && Sampled(s, w, x, y).Height? ensures Holds(b, x, y) {
      MeasurementShows(s, w, h, x, y);
    }
  }

  // ----- The square crop -----

  /** Source-pixel window and output resolution. */
  datatype RoiCrop = RoiCrop(x0: nat, y0: nat, win: nat, outN: nat)

  function HalfWidth(halfPx: int, cc: int, cr: int, b: Box): int {
    Max(1, Min(halfPx, Min(Min(Max(cc - b.x0, 0), Max(b.x1 - cc, 0)), Min(Max(cr - b.y0, 0), Max(b.y1 - cr, 0)))))
  }

  /** The window part of `resolve_roi`: centre pixel (cc, cr), requested half-width `halfPx`, and the
      authored resolution, if any. */
  function CropWindow(halfPx: int, cc: int, cr: int, b: Box, target: Option<nat>): RoiCrop {
    var half := HalfWidth(halfPx, cc, cr, b);
    var win := 2 * half + 1;
    RoiCrop(Max(cc - half, 0), Max(cr - half, 0), win,
      match target case Some(n) => Max(n, 1) case None => win)
  }

  predicate CentreInside(cc: int, cr: int, b: Box) {
    b.x0 + 1 <= cc <= b.x1 - 1 && b.y0 + 1 <= cr <= b.y1 - 1
  }

  /** The window of half-width `half` around the centre lies in the box. */
  predicate Fits(half: int, cc: int, cr: int, b: Box) {
    b.x0 <= cc - half && cc + half <= b.x1 && b.y0 <= cr - half && cr + half <= b.y1
  }

  /** The crop is centred and inside the valid box exactly when the centre lies at least one pixel
      inside it; then it is the largest such square not above the request. */
  lemma CropIsCentredIff(halfPx: int, cc: int, cr: int, b: Box, target: Option<nat>)
    ensures var c := CropWindow(halfPx, cc, cr, b, target);
      var half := HalfWidth(halfPx, cc, cr, b);
      && (c.x0 == cc - half && c.y0 == cr - half && Fits(half, cc, cr, b) <==> CentreInside(cc, cr, b))
      && (CentreInside(cc, cr, b) && halfPx >= 1 ==>
            half <= halfPx && forall h :: 1 <= h <= halfPx && Fits(h, cc, cr, b) ==> h <= half)
  {
  }

  // ----- The raw samples of the crop, and the no-data guard -----

  function CropRow(s: seq<Sample>, w: nat, y: nat, x0: nat, x1: nat): (r: seq<Sample>)
    requires x0 <= x1 ==> y * w + x1 <= |s|
    ensures |r| == if x0 <= x1 then x1 - x0 else 0
  {
    if x0 <= x1 then s[y * w + x0..y * w + x1] else []
  }

  /** Rows `y0` to `y1` of the crop, one after the other. */
  function CropRows(s: seq<Sample>, w: nat, h: nat, roi: RoiCrop, y0: nat, y1: nat): seq<Sample>
    requires |s| == w * h && y1 <= h
    decreases y1
  {
    if y1 <= y0 then []
    else
      RowsFit(w, h, y1 - 1);
      CropRows(s, w, h, roi, y0, y1 - 1) + CropRow(s, w, y1 - 1, roi.x0, Min(roi.x0 + roi.win, w))
  }

  lemma RowsFit(w: nat, h: nat, y: nat)
    requires y < h
    ensures y * w + w <= w * h
  {
    IntProductMonotone(y + 1, h, w);
    assert (y + 1) * w == y * w + w;
  }

  function RoiSamples(s: seq<Sample>, w: nat, h: nat, roi: RoiCrop): seq<Sample> {
    if |s| != w * h then [] else CropRows(s, w, h, roi, roi.y0, Min(roi.y0 + roi.win, h))
  }

  method CollectRow(s: seq<Sample>, w: nat, y: nat, x0: nat, x1: nat) returns (out: seq<Sample>)
    requires x0 <= x1 ==> y * w + x1 <= |s|
    ensures out == CropRow(s, w, y, x0, x1)
  {
    out := [];
    var x := x0;
    while x < x1
      invariant x0 <= x1 ==> x <= x1
      invariant out == if x0 <= x1 then s[y * w + x0..y * w + x] else []
    {
      out := out + [s[y * w + x]];
      x := x + 1;
    }
  }

  method CollectRoiSamples(s: seq<Sample>, w: nat, h: nat, roi: RoiCrop) returns (out: seq<Sample>)
    ensures out == RoiSamples(s, w, h, roi)
  {
    if |s| != w * h {
      return [];
    }
    hide CropRow;
    out := [];
    var y1 := Min(roi.y0 + roi.win, h);
    var y := roi.y0;
    while y < y1
      invariant roi.y0 <= y && (roi.y0 <= y1 ==> y <= y1)
      invariant y <= y1 ==> out == CropRows(s, w, h, roi, roi.y0, y)
      invariant y > y1 ==> out == [] && y == roi.y0
    {
      RowsFit(w, h, y);
      var row := CollectRow(s, w, y, roi.x0, Min(roi.x0 + roi.win, w));
      out := out + row;
      y := y + 1;
    }
  }

  /** How many of `win` pixels from `start` lie below `size`. */
  function Shared(start: nat, win: nat, size: nat): nat {
    if start + win <= size then win else if start <= size then size - start else 0
  }

  /** The samples are those of the crop that the raster holds, row by row, each once. */
  lemma RoiSampleAt(s: seq<Sample>, w: nat, h: nat, roi: RoiCrop, i: nat, j: nat)
    requires |s| == w * h && i < Shared(roi.x0, roi.win, w) && j < Shared(roi.y0, roi.win, h)
    ensures var cols, rows := Shared(roi.x0, roi.win, w), Shared(roi.y0, roi.win, h);
      && |RoiSamples(s, w, h, roi)| == rows * cols && 0 <= j * cols + i < rows * cols
      && RoiSamples(s, w, h, roi)[j * cols + i] == Sampled(s, w, roi.x0 + i, roi.y0 + j)
  {
    CropRowsAt(s, w, h, roi, Shared(roi.y0, roi.win, h), i, j);
  }

  lemma {:induction false} CropRowsAt(s: seq<Sample>, w: nat, h: nat, roi: RoiCrop, rows: nat, i: nat, j: nat)
    requires |s| == w * h && i < Shared(roi.x0, roi.win, w) && j < rows && roi.y0 + rows <= h
    ensures var cols := Shared(roi.x0, roi.win, w);
      var out := CropRows(s, w, h, roi, roi.y0, roi.y0 + rows);
      && |out| == rows * cols && 0 <= j * cols + i < rows * cols
      && out[j * cols + i] == Sampled(s, w, roi.x0 + i, roi.y0 + j)
    decreases rows
  {
    var cols, n := Shared(roi.x0, roi.win, w), rows - 1;
    CropRowsSize(s, w, h, roi, n);
    CropRowsNext(s, w, h, roi, n);
    CropRowAt(s, w, h, roi, roi.y0 + n, i);
    hide CropRows, RowOf, Sampled, Shared;
    var before, row := CropRows(s, w, h, roi, roi.y0, roi.y0 + n), RowOf(s, w, h, roi, roi.y0 + n);
    Product(rows, cols);
    if j < n {
      CropRowsAt(s, w, h, roi, n, i, j);
      assert (before + row)[j * cols + i] == before[j * cols + i];
    } else {
      assert j == n && |before| == n * cols;
      assert (before + row)[|before| + i] == row[i];
    }
  }

  lemma Product(rows: nat, cols: nat)
    requires rows > 0
    ensures rows * cols == (rows - 1) * cols + cols
  {
  }

  lemma {:induction false} CropRowsSize(s: seq<Sample>, w: nat, h: nat, roi: RoiCrop, rows: nat)
    requires |s| == w * h && roi.y0 + rows <= h
    ensures |CropRows(s, w, h, roi, roi.y0, roi.y0 + rows)| == rows * Shared(roi.x0, roi.win, w)
    decreases rows
  {
    if rows > 0 {
      CropRowsSize(s, w, h, roi, rows - 1);
      CropRowsNext(s, w, h, roi, rows - 1);
      CropRowSize(s, w, h, roi, roi.y0 + rows - 1);
      hide CropRows, CropRow;
      assert rows * Shared(roi.x0, roi.win, w) == (rows - 1) * Shared(roi.x0, roi.win, w) + Shared(roi.x0, roi.win, w);
    }
  }

  /** Row `y` of the crop. */
  function RowOf(s: seq<Sample>, w: nat, h: nat, roi: RoiCrop, y: nat): seq<Sample>
    requires |s| == w * h && y < h
  {
    RowsFit(w, h, y);
    CropRow(s, w, y, roi.x0, Min(roi.x0 + roi.win, w))
  }

  lemma CropRowsNext(s: seq<Sample>, w: nat, h: nat, roi: RoiCrop, rows: nat)
    requires |s| == w * h && roi.y0 + rows < h
    ensures CropRows(s, w, h, roi, roi.y0, roi.y0 + rows + 1) ==
      CropRows(s, w, h, roi, roi.y0, roi.y0 + rows) + RowOf(s, w, h, roi, roi.y0 + rows)
  {
    hide CropRow;
  }

  lemma CropRowSize(s: seq<Sample>, w: nat, h: nat, roi: RoiCrop, y: nat)
    requires |s| == w * h && y < h
    ensures |RowOf(s, w, h, roi, y)| == Shared(roi.x0, roi.win, w)
  {
  }

  lemma CropRowAt(s: seq<Sample>, w: nat, h: nat, roi: RoiCrop, y: nat, i: nat)
    requires |s| == w * h && y < h && i < Shared(roi.x0, roi.win, w)
    ensures |RowOf(s, w, h, roi, y)| == Shared(roi.x0, roi.win, w)
    ensures RowOf(s, w, h, roi, y)[i] == Sampled(s, w, roi.x0 + i, y)
  {
    RowsFit(w, h, y);
  }

  /** `reject_if_mostly_nodata`: more than the limit of the crop is void. */
  predicate MostlyNoData(values: seq<Sample>, limit: real) {
    values != [] && CountVoids(values) as real / |values| as real > limit
  }

  ghost function VoidsOf(values: seq<Sample>): set<int> {
    set i | 0 <= i < |values| && values[i].Void?
  }

  /** A crop is rejected exactly when more than one in twenty of its samples is void. */
  lemma RejectedIff(values: seq<Sample>)
    ensures MostlyNoData(values, 0.05) <==> 20 * |VoidsOf(values)| > |values|
  {
    CountVoidsIsCount(values);
    if values != [] {
      ShareExceeds(CountVoids(values), |values|);
    }
  }

  lemma ShareExceeds(part: nat, whole: nat)
    requires whole > 0
    ensures part as real / whole as real > 0.05 <==> 20 * part > whole
  {
    var q := part as real / whole as real;
    assert q * whole as real == part as real;
    if q > 0.05 {
      RealProductStrict(0.05, q, whole as real);
    } else {
      RealProductMonotone(q, 0.05, whole as real);
    }
  }

  lemma {:induction false} CountVoidsIsCount(s: seq<Sample>)
    ensures CountVoids(s) == |VoidsOf(s)|
  {
    if s == [] {
      NoneOfNone();
    } else {
      var n := |s| - 1;
      CountVoidsIsCount(s[..n]);
      assert VoidsOf(s) == if s[n].Void? then VoidsOf(s[..n]) + {n} else VoidsOf(s[..n]);
    }
  }

  lemma NoneOfNone()
    ensures VoidsOf([]) == {}
  {
  }

  // ----- Bilinear resampling, renormalised over the measured neighbours -----

  /** Where output sample `o` of `n` falls in a window of `win` pixels from `start`. */
  function Position(start: nat, o: nat, n: nat, win: nat): real
    requires win >= 1
  {
    start as real + (o as real / Max(n - 1, 1) as real) * (win - 1) as real
  }

  /** A source sample and its bilinear weight. */
  datatype Tap = Tap(sample: Sample, weight: real)

  /** A source pixel and its bilinear weight. */
  datatype Pixel = Pixel(x: nat, y: nat, weight: real)

  /** The four pixels one output sample looks at. Only the neighbours to the east and south are held inside
      the raster. */
  function Footprint(w: nat, h: nat, roi: RoiCrop, ox: nat, oy: nat): (f: seq<Pixel>)
    requires roi.win >= 1 && w >= 1 && h >= 1
    ensures |f| == 4
  {
    var px, py := Position(roi.x0, ox, roi.outN, roi.win), Position(roi.y0, oy, roi.outN, roi.win);
    PositionIsNatural(roi.x0, ox, roi.outN, roi.win);
    PositionIsNatural(roi.y0, oy, roi.outN, roi.win);
    var x0: nat, y0: nat := px.Floor, py.Floor;
    var x1: nat, y1: nat := Min(x0 + 1, w - 1), Min(y0 + 1, h - 1);
    var fx, fy := px - x0 as real, py - y0 as real;
    [Pixel(x0, y0, Weight(1.0 - fx, 1.0 - fy)), Pixel(x1, y0, Weight(fx, 1.0 - fy)),
     Pixel(x0, y1, Weight(1.0 - fx, fy)), Pixel(x1, y1, Weight(fx, fy))]
  }

  function TapOf(s: seq<Sample>, w: nat, p: Pixel): Tap {
    Tap(Sampled(s, w, p.x, p.y), p.weight)
  }

  function Taps(s: seq<Sample>, w: nat, h: nat, roi: RoiCrop, ox: nat, oy: nat): (taps: seq<Tap>)
    requires roi.win >= 1 && w >= 1 && h >= 1
    ensures |taps| == 4
  {
    var f := Footprint(w, h, roi, ox, oy);
    [TapOf(s, w, f[0]), TapOf(s, w, f[1]), TapOf(s, w, f[2]), TapOf(s, w, f[3])]
  }

  function Weight(a: real, b: real): real {
    a * b
  }

  lemma PositionIsNatural(start: nat, o: nat, n: nat, win: nat)
    requires win >= 1
    ensures Position(start, o, n, win) >= start as real >= 0.0
  {
    RealProductMonotone(0.0, o as real / Max(n - 1, 1) as real, (win - 1) as real);
  }

  /** Weighted sum and weight of the measured taps among the first `k`. */
  function Blend(taps: seq<Tap>, k: nat): (real, real)
    requires k <= |taps|
  {
    if k == 0 then (0.0, 0.0) else PlusTap(Blend(taps, k - 1), taps[k - 1])
  }

  function PlusTap(sum: (real, real), t: Tap): (real, real) {
    match t.sample
    case Void => sum
    case Height(v) => (sum.0 + v * t.weight, sum.1 + t.weight)
  }

  const MIN_WEIGHT: real := 0.000_000_000_001

  function Blended(taps: seq<Tap>): Sample {
    var b := Blend(taps, |taps|);
    if b.1 > MIN_WEIGHT then Height(b.0 / b.1) else Void
  }

  function Bilinear(s: seq<Sample>, w: nat, h: nat, roi: RoiCrop, ox: nat, oy: nat): Sample
    requires roi.win >= 1 && w >= 1 && h >= 1
  {
    Blended(Taps(s, w, h, roi, ox, oy))
  }

  /** A weight is never negative, and what carries weight is void or within the bounds. */
  ghost predicate TapBounded(t: Tap, lo: real, hi: real) {
    t.weight >= 0.0 && (t.weight == 0.0 || (t.sample.Height? ==> lo <= t.sample.metres <= hi))
  }

  ghost predicate WeightedBounded(sum: (real, real), lo: real, hi: real) {
    lo * sum.1 <= sum.0 <= hi * sum.1
  }

  lemma PlusTapBounded(sum: (real, real), t: Tap, lo: real, hi: real)
    requires WeightedBounded(sum, lo, hi) && TapBounded(t, lo, hi)
    ensures WeightedBounded(PlusTap(sum, t), lo, hi)
  {
    if t.sample.Height? {
      var v, w := t.sample.metres, t.weight;
      if w > 0.0 {
        RealProductMonotone(lo, v, w);
        RealProductMonotone(v, hi, w);
      }
      SumBoundedStep(sum.0, sum.1, v * w, w, lo, hi);
    }
  }

  lemma SumBoundedStep(sum: real, weight: real, term: real, w: real, lo: real, hi: real)
    requires lo * weight <= sum <= hi * weight && lo * w <= term <= hi * w
    ensures lo * (weight + w) <= sum + term <= hi * (weight + w)
  {
    assert lo * (weight + w) == lo * weight + lo * w && hi * (weight + w) == hi * weight + hi * w;
  }

  lemma {:induction false} BlendBounded(taps: seq<Tap>, k: nat, lo: real, hi: real)
    requires k <= |taps| && forall i :: 0 <= i < |taps| ==> TapBounded(taps[i], lo, hi)
    ensures WeightedBounded(Blend(taps, k), lo, hi)
  {
    if k > 0 {
      hide PlusTap, TapBounded, WeightedBounded;
      BlendBounded(taps, k - 1, lo, hi);
      PlusTapBounded(Blend(taps, k - 1), taps[k - 1], lo, hi);
    }
  }

  lemma BlendedBounded(taps: seq<Tap>, lo: real, hi: real)
    requires forall i :: 0 <= i < |taps| ==> TapBounded(taps[i], lo, hi)
    ensures Blended(taps).Height? ==> lo <= Blended(taps).metres <= hi
  {
    BlendBounded(taps, |taps|, lo, hi);
    var b := Blend(taps, |taps|);
    if b.1 > MIN_WEIGHT {
      MeanBounded(b.0, b.1, lo, hi);
    }
  }

  predicate InCrop(roi: RoiCrop, x: nat, y: nat) {
    roi.x0 <= x < roi.x0 + roi.win && roi.y0 <= y < roi.y0 + roi.win
  }

  /** Every height of the crop lies within the bounds. */
  ghost predicate CropBounded(s: seq<Sample>, w: nat, roi: RoiCrop, lo: real, hi: real) {
    forall x: nat, y: nat ::
      (InCrop(roi, x, y) && x < w && Sampled(s, w, x, y).Height?) ==>
        lo <= Sampled(s, w, x, y).metres <= hi
  }

  lemma PositionInWindow(start: nat, o: nat, n: nat, win: nat)
    requires win >= 1 && o < n
    ensures start as real <= Position(start, o, n, win) <= (start + win - 1) as real
  {
    var q, d := o as real / Max(n - 1, 1) as real, Max(n - 1, 1) as real;
    assert q * d == o as real;
    assert 0.0 <= q by {
      if q < 0.0 {
        RealProductStrict(q, 0.0, d);
      }
    }
    assert q <= 1.0 by {
      if q > 1.0 {
        RealProductStrict(1.0, q, d);
      }
    }
    var reach := (win - 1) as real;
    RealProductMonotone(0.0, q, reach);
    RealProductMonotone(q, 1.0, reach);
    assert 0.0 * reach == 0.0 && 1.0 * reach == reach;
    assert Position(start, o, n, win) == start as real + q * reach;
    assert (start + win - 1) as real == start as real + reach;
  }

  /** What reaches beyond the window on one axis carries no weight. */
  lemma AxisWeight(start: nat, o: nat, n: nat, win: nat)
    requires win >= 1 && o < n
    ensures var p := Position(start, o, n, win); var i := p.Floor; var f := p - i as real;
      start <= i <= start + win - 1 && 0.0 <= f < 1.0 && (i == start + win - 1 ==> f == 0.0)
  {
    PositionInWindow(start, o, n, win);
  }

  // ----- Which crops keep the range of their own heights -----

  /** Where a pixel is in the buffer. A column beyond the raster's width is a column of a later row. */
  function BufferIndex(w: nat, p: Pixel): nat {
    p.y * w + p.x
  }

  /** A pixel that carries weight and is read from the buffer, but from outside the crop. */
  predicate Strays(w: nat, h: nat, roi: RoiCrop, p: Pixel)
    requires w >= 1
  {
    var i := BufferIndex(w, p);
    p.weight > 0.0 && i < w * h && !InCrop(roi, i % w, i / w)
  }

  /** The weight of those of the first `k` pixels that are in the buffer. */
  function Reach(w: nat, h: nat, f: seq<Pixel>, k: nat): real
    requires k <= |f|
  {
    if k == 0 then 0.0
    else Reach(w, h, f, k - 1) + if BufferIndex(w, f[k - 1]) < w * h then f[k - 1].weight else 0.0
  }

  predicate EscapesAt(w: nat, h: nat, roi: RoiCrop, ox: nat, oy: nat)
    requires roi.win >= 1 && w >= 1 && h >= 1
  {
    var f := Footprint(w, h, roi, ox, oy);
    Reach(w, h, f, 4) > MIN_WEIGHT && exists k :: 0 <= k < 4 && Strays(w, h, roi, f[k])
  }

  /** Some output sample is read, in part, from outside the crop. This asks for the geometry only: window,
      resolution and raster size. */
  predicate Escapes(w: nat, h: nat, roi: RoiCrop)
    requires roi.win >= 1 && w >= 1 && h >= 1
  {
    exists ox: nat, oy: nat :: ox < roi.outN && oy < roi.outN && EscapesAt(w, h, roi, ox, oy)
  }

  lemma FootprintWeights(w: nat, h: nat, roi: RoiCrop, ox: nat, oy: nat)
    requires roi.win >= 1 && w >= 1 && h >= 1 && ox < roi.outN && oy < roi.outN
    ensures forall k :: 0 <= k < 4 ==> Footprint(w, h, roi, ox, oy)[k].weight >= 0.0
  {
    hide Position, Weight;
    var px, py := Position(roi.x0, ox, roi.outN, roi.win), Position(roi.y0, oy, roi.outN, roi.win);
    AxisWeight(roi.x0, ox, roi.outN, roi.win);
    AxisWeight(roi.y0, oy, roi.outN, roi.win);
    var fx, fy := px - px.Floor as real, py - py.Floor as real;
    WeightSigned(1.0 - fx, 1.0 - fy);
    WeightSigned(fx, 1.0 - fy);
    WeightSigned(1.0 - fx, fy);
    WeightSigned(fx, fy);
  }

  lemma WeightSigned(a: real, b: real)
    requires a >= 0.0 && b >= 0.0
    ensures Weight(a, b) >= 0.0 && (a == 0.0 || b == 0.0 ==> Weight(a, b) == 0.0)
  {
    RealProductMonotone(0.0, a, b);
  }

  /** A pixel that does not stray shows nothing, weighs nothing, or shows a height of the crop. */
  lemma HomeTapBounded(s: seq<Sample>, w: nat, h: nat, roi: RoiCrop, p: Pixel, lo: real, hi: real)
    requires w >= 1 && |s| == w * h && p.weight >= 0.0 && !Strays(w, h, roi, p)
    requires CropBounded(s, w, roi, lo, hi)
    ensures TapBounded(TapOf(s, w, p), lo, hi)
  {
    var i := BufferIndex(w, p);
    if p.weight > 0.0 && i < w * h {
      assert i == (i / w) * w + i % w;
      assert Sampled(s, w, i % w, i / w) == Sampled(s, w, p.x, p.y);
    }
  }

  lemma {:induction false} BlendReach(s: seq<Sample>, w: nat, h: nat, f: seq<Pixel>, taps: seq<Tap>, k: nat)
    requires |s| == w * h && |f| == |taps| && k <= |f|
    requires forall i :: 0 <= i < |f| ==> f[i].weight >= 0.0 && taps[i] == TapOf(s, w, f[i])
    ensures Blend(taps, k).1 <= Reach(w, h, f, k)
  {
    if k > 0 {
      BlendReach(s, w, h, f, taps, k - 1);
    }
  }

  /** No resampled height leaves the range of the heights in the crop, if nothing is read from outside it. */
  lemma BilinearBounded(s: seq<Sample>, w: nat, h: nat, roi: RoiCrop, ox: nat, oy: nat, lo: real, hi: real)
    requires roi.win >= 1 && w >= 1 && h >= 1 && |s| == w * h && ox < roi.outN && oy < roi.outN
    requires !EscapesAt(w, h, roi, ox, oy) && CropBounded(s, w, roi, lo, hi)
    ensures var out := Bilinear(s, w, h, roi, ox, oy); out.Height? ==> lo <= out.metres <= hi
  {
    hide Footprint, CropBounded, TapBounded, Strays, Reach, Sampled, Blend, TapOf;
    var f, taps := Footprint(w, h, roi, ox, oy), Taps(s, w, h, roi, ox, oy);
    FootprintWeights(w, h, roi, ox, oy);
    if Reach(w, h, f, 4) > MIN_WEIGHT {
      forall k | 0 <= k < 4 ensures TapBounded(taps[k], lo, hi) {
        HomeTapBounded(s, w, h, roi, f[k], lo, hi);
      }
      BlendedBounded(taps, lo, hi);
    } else {
      BlendReach(s, w, h, f, taps, 4);
    }
  }

  lemma PositionIsPixel(start: nat, o: nat, n: nat)
    requires o < n
    ensures Position(start, o, n, n) == (start + o) as real
  {
    if n > 1 {
      var d := (n - 1) as real;
      assert (o as real / d) * d == o as real;
    }
  }

  /** At the window's own resolution resampling is the crop itself, voids included. */
  lemma BilinearIdentity(s: seq<Sample>, w: nat, h: nat, roi: RoiCrop, ox: nat, oy: nat)
    requires w >= 1 && h >= 1 && roi.win >= 1 && roi.outN == roi.win && ox < roi.outN && oy < roi.outN
    ensures Bilinear(s, w, h, roi, ox, oy) == Sampled(s, w, roi.x0 + ox, roi.y0 + oy)
  {
    hide Position, Sampled;
    PositionIsPixel(roi.x0, ox, roi.win);
    PositionIsPixel(roi.y0, oy, roi.win);
    var taps := Taps(s, w, h, roi, ox, oy);
    assert taps[0] == Tap(Sampled(s, w, roi.x0 + ox, roi.y0 + oy), 1.0);
    assert taps[1].weight == taps[2].weight == taps[3].weight == 0.0;
    WeightlessTaps(taps);
  }

  lemma WeightlessTaps(taps: seq<Tap>)
    requires |taps| == 4 && taps[0].weight == 1.0
    requires taps[1].weight == taps[2].weight == taps[3].weight == 0.0
    ensures Blended(taps) == taps[0].sample
  {
    var first := if taps[0].sample.Height? then (taps[0].sample.metres, 1.0) else (0.0, 0.0);
    assert Blend(taps, 0) == (0.0, 0.0);
    assert Blend(taps, 1) == first;
    assert Blend(taps, 2) == first;
    assert Blend(taps, 3) == first;
    assert Blend(taps, 4) == first;
    if taps[0].sample.Height? {
      assert first.0 / 1.0 == first.0;
    }
  }

  // ----- The pipeline -----

  /** The resampled raster, row by row. */
  function Resampled(s: seq<Sample>, w: nat, h: nat, roi: RoiCrop): (r: seq<Sample>)
    requires roi.win >= 1 && w >= 1 && h >= 1
    ensures |r| == roi.outN * roi.outN
    ensures forall i :: 0 <= i < |r| ==> r[i] == ResampledCell(s, w, h, roi, i)
  {
    seq(roi.outN * roi.outN, i requires 0 <= i < roi.outN * roi.outN => ResampledCell(s, w, h, roi, i))
  }

  function ResampledCell(s: seq<Sample>, w: nat, h: nat, roi: RoiCrop, i: nat): Sample
    requires roi.win >= 1 && w >= 1 && h >= 1 && i < roi.outN * roi.outN
  {
    CellOf(roi.outN, i);
    Bilinear(s, w, h, roi, i % roi.outN, i / roi.outN)
  }

  /** `resample_roi_bilinear`. */
  method ResampleRoi(s: seq<Sample>, w: nat, h: nat, roi: RoiCrop) returns (out: array<Sample>)
    requires roi.win >= 1 && w >= 1 && h >= 1
    ensures fresh(out) && out.Length == roi.outN * roi.outN
    ensures out[..] == Resampled(s, w, h, roi)
  {
    hide Bilinear;
    var n := roi.outN;
    out := new Sample[n * n](_ => Void);
    for oy := 0 to n
      invariant oy * n <= n * n
      invariant forall i :: 0 <= i < oy * n ==> out[i] == ResampledCell(s, w, h, roi, i)
    {
      RowsFit(n, n, oy);
      for ox := 0 to n
        invariant forall i :: 0 <= i < oy * n + ox ==> out[i] == ResampledCell(s, w, h, roi, i)
      {
        CellIndex(n, ox, oy);
        out[oy * n + ox] := Bilinear(s, w, h, roi, ox, oy);
      }
      assert (oy + 1) * n == oy * n + n;
    }
  }

  datatype BakeError = NoFiniteSamples | NoData | TooManyVoids(left: nat)

  ghost predicate AllWithin(out: seq<Sample>, lo: real, hi: real) {
    forall i :: 0 <= i < |out| ==> out[i].Height? && lo <= out[i].metres <= hi
  }

  /** The square crop the request resolves to, once there is a box of valid data. */
  function DemCrop(s: seq<Sample>, w: nat, h: nat, halfPx: int, cc: int, cr: int, target: Option<nat>): RoiCrop
    requires ValidDataBounds(s, w, h).Some?
  {
    CropWindow(halfPx, cc, cr, ValidDataBounds(s, w, h).value, target)
  }

  /** Exactly the requests that can be baked. */
  ghost predicate Bakeable(s: seq<Sample>, w: nat, h: nat, halfPx: int, cc: int, cr: int, target: Option<nat>)
    requires w >= 1 && h >= 1
  {
    && ValidDataBounds(s, w, h).Some?
    && var roi := DemCrop(s, w, h, halfPx, cc, cr, target);
       && !MostlyNoData(RoiSamples(s, w, h, roi), 0.05)
       && Fillable(Resampled(s, w, h, roi), roi.outN)
  }

  /** `process_dem`, from the decoded raster to the elevations it writes. */
  method ProcessDem(s: seq<Sample>, w: nat, h: nat, halfPx: int, cc: int, cr: int, target: Option<nat>)
    returns (r: Result<seq<Sample>, BakeError>)
    requires w >= 1 && h >= 1 && |s| == w * h
    ensures r.Ok? <==> Bakeable(s, w, h, halfPx, cc, cr, target)
    ensures r.Ok? ==>
      var roi := DemCrop(s, w, h, halfPx, cc, cr, target);
      r.value == Passes(Resampled(s, w, h, roi), roi.outN, MAX_PASSES)
      && forall i :: 0 <= i < |r.value| ==> r.value[i].Height?
  {
    hide ValidDataBounds, RoiSamples, MostlyNoData, Fillable, Passes;
    var bounds := ValidDataBounds(s, w, h);
    if bounds.None? {
      return Err(NoFiniteSamples);
    }
    var roi := CropWindow(halfPx, cc, cr, bounds.value, target);
    var raw := CollectRoiSamples(s, w, h, roi);
    if MostlyNoData(raw, 0.05) {
      return Err(NoData);
    }
    var heights := ResampleRoi(s, w, h, roi);
    var filled := FillDemVoids(heights, roi.outN);
    if filled.Err? {
      return Err(TooManyVoids(filled.error.left));
    }
    r := Ok(heights[..]);
  }

  /** Every elevation that is baked is finite and lies between the smallest and the largest measurement
      in the crop, if nothing is read from outside it. */
  lemma BakedWithoutEscape(
    s: seq<Sample>, w: nat, h: nat, halfPx: int, cc: int, cr: int, target: Option<nat>, lo: real, hi: real)
    requires w >= 1 && h >= 1 && |s| == w * h && Bakeable(s, w, h, halfPx, cc, cr, target)
    requires !Escapes(w, h, DemCrop(s, w, h, halfPx, cc, cr, target))
    requires CropBounded(s, w, DemCrop(s, w, h, halfPx, cc, cr, target), lo, hi)
    ensures var roi := DemCrop(s, w, h, halfPx, cc, cr, target);
      AllWithin(Passes(Resampled(s, w, h, roi), roi.outN, MAX_PASSES), lo, hi)
  {
    hide ValidDataBounds, RoiSamples, MostlyNoData, Fillable, Passes, Bounded, CropBounded, Escapes;
    var roi := DemCrop(s, w, h, halfPx, cc, cr, target);
    FilledWithoutEscape(s, w, h, roi, lo, hi);
    var resampled := Resampled(s, w, h, roi);
    FullAfterIffFillable(resampled, roi.outN);
    NoVoidsIff(Passes(resampled, roi.outN, MAX_PASSES));
    WithinWhenFull(Passes(resampled, roi.outN, MAX_PASSES), lo, hi);
  }

  lemma WithinWhenFull(out: seq<Sample>, lo: real, hi: real)
    requires Bounded(out, lo, hi) && forall i :: 0 <= i < |out| ==> out[i].Height?
    ensures AllWithin(out, lo, hi)
  {
  }

  lemma FilledWithoutEscape(s: seq<Sample>, w: nat, h: nat, roi: RoiCrop, lo: real, hi: real)
    requires roi.win >= 1 && w >= 1 && h >= 1 && |s| == w * h
    requires !Escapes(w, h, roi) && CropBounded(s, w, roi, lo, hi)
    ensures Bounded(Passes(Resampled(s, w, h, roi), roi.outN, MAX_PASSES), lo, hi)
  {
    hide Passes, CropBounded, Bilinear, EscapesAt;
    var resampled := Resampled(s, w, h, roi);
    forall i | 0 <= i < |resampled| && resampled[i].Height? ensures lo <= resampled[i].metres <= hi {
      CellOf(roi.outN, i);
      BilinearBounded(s, w, h, roi, i % roi.outN, i / roi.outN, lo, hi);
    }
    PassesBounded(resampled, roi.outN, MAX_PASSES, lo, hi);
  }
}
