/** Exactly which crops keep the range of their own measurements through resampling and void filling. */
module TerrainReach {
  import opened Arithmetic
  import opened Wrappers
  import opened VoidFill
  import opened TerrainBake

  /** Whatever the raster holds, every height of the filled resample lies within the bounds of the crop. */
  ghost predicate KeepsRange(w: nat, h: nat, roi: RoiCrop)
    requires roi.win >= 1 && w >= 1 && h >= 1
  {
    forall s: seq<Sample>, lo: real, hi: real :: |s| == w * h && CropBounded(s, w, roi, lo, hi) ==>
      Bounded(Passes(Resampled(s, w, h, roi), roi.outN, MAX_PASSES), lo, hi)
  }

  // ----- A raster that tells the crop from the rest -----

  /** Flat at 0 inside the crop, at 1 everywhere else, and measured throughout. */
  function Probe(w: nat, h: nat, roi: RoiCrop): (s: seq<Sample>)
    requires w >= 1
    ensures |s| == w * h
    ensures forall i :: 0 <= i < |s| ==> s[i] == Height(if InCrop(roi, i % w, i / w) then 0.0 else 1.0)
  {
    seq(w * h, i requires 0 <= i < w * h => Height(if InCrop(roi, i % w, i / w) then 0.0 else 1.0))
  }

  lemma ProbeIsFlatInside(w: nat, h: nat, roi: RoiCrop)
    requires w >= 1
    ensures CropBounded(Probe(w, h, roi), w, roi, 0.0, 0.0)
  {
    var s := Probe(w, h, roi);
    forall x: nat, y: nat | InCrop(roi, x, y) && x < w && Sampled(s, w, x, y).Height?
      ensures Sampled(s, w, x, y) == Height(0.0)
    {
      QuotientUnique(w, y * w + x, y, x);
    }
  }

  lemma ProbeTap(w: nat, h: nat, roi: RoiCrop, p: Pixel)
    requires w >= 1
    ensures var tap := TapOf(Probe(w, h, roi), w, p);
      && tap.weight == p.weight
      && (tap.sample.Height? <==> BufferIndex(w, p) < w * h)
      && (tap.sample.Height? ==> tap.sample.metres >= 0.0)
      && (Strays(w, h, roi, p) ==> tap.sample == Height(1.0))
  {
  }

  lemma {:induction false} ProbeBlend(w: nat, h: nat, roi: RoiCrop, f: seq<Pixel>, taps: seq<Tap>, k: nat)
    requires w >= 1 && |f| == |taps| && k <= |f|
    requires forall i :: 0 <= i < |f| ==> f[i].weight >= 0.0 && taps[i] == TapOf(Probe(w, h, roi), w, f[i])
    ensures Blend(taps, k).1 == Reach(w, h, f, k) && Blend(taps, k).0 >= 0.0
    ensures (exists i :: 0 <= i < k && Strays(w, h, roi, f[i])) ==> Blend(taps, k).0 > 0.0
  {
    hide Strays, TapOf, BufferIndex;
    if k > 0 {
      ProbeBlend(w, h, roi, f, taps, k - 1);
      ProbeTap(w, h, roi, f[k - 1]);
      var tap := taps[k - 1];
      if tap.sample.Height? {
        TermSigned(tap.sample.metres, tap.weight);
      }
      StraysCarryWeight(w, h, roi, f[k - 1]);
    }
  }

  lemma TermSigned(a: real, b: real)
    requires a >= 0.0 && b >= 0.0
    ensures a * b >= 0.0 && (a == 1.0 ==> a * b == b)
  {
    RealProductMonotone(0.0, a, b);
  }

  lemma StraysCarryWeight(w: nat, h: nat, roi: RoiCrop, p: Pixel)
    requires w >= 1
    ensures Strays(w, h, roi, p) ==> p.weight > 0.0
  {
  }

  /** Where the footprint is measured enough, the probe resamples to a height, above 0 if a pixel strays. */
  lemma ProbeResamples(w: nat, h: nat, roi: RoiCrop, ox: nat, oy: nat)
    requires roi.win >= 1 && w >= 1 && h >= 1 && ox < roi.outN && oy < roi.outN
    requires Reach(w, h, Footprint(w, h, roi, ox, oy), 4) > MIN_WEIGHT
    ensures Bilinear(Probe(w, h, roi), w, h, roi, ox, oy).Height?
    ensures EscapesAt(w, h, roi, ox, oy) ==> Bilinear(Probe(w, h, roi), w, h, roi, ox, oy).metres > 0.0
  {
    hide Footprint, Strays, Reach, TapOf, Blend;
    var s, f := Probe(w, h, roi), Footprint(w, h, roi, ox, oy);
    var taps := Taps(s, w, h, roi, ox, oy);
    FootprintWeights(w, h, roi, ox, oy);
    assert forall i :: 0 <= i < |f| ==> taps[i] == TapOf(s, w, f[i]);
    ProbeBlend(w, h, roi, f, taps, 4);
    var b := Blend(taps, 4);
    if b.0 > 0.0 {
      QuotientPositive(b.0, b.1);
    }
  }

  lemma QuotientPositive(a: real, b: real)
    requires a > 0.0 && b > 0.0
    ensures a / b > 0.0
  {
  }

  lemma EscapeShows(w: nat, h: nat, roi: RoiCrop, ox: nat, oy: nat)
    requires roi.win >= 1 && w >= 1 && h >= 1 && ox < roi.outN && oy < roi.outN && EscapesAt(w, h, roi, ox, oy)
    ensures !Bounded(Passes(Resampled(Probe(w, h, roi), w, h, roi), roi.outN, MAX_PASSES), 0.0, 0.0)
  {
    hide Bilinear, Passes;
    var n, resampled := roi.outN, Resampled(Probe(w, h, roi), w, h, roi);
    ProbeResamples(w, h, roi, ox, oy);
    CellIndex(n, ox, oy);
    var i: nat := oy * n + ox;
    assert resampled[i] == Bilinear(Probe(w, h, roi), w, h, roi, ox, oy);
    NoPasses(resampled, n);
    HeightsStay(resampled, n, 0, MAX_PASSES, i);
  }

  lemma NoPasses(s: seq<Sample>, n: nat)
    requires |s| == n * n
    ensures Passes(s, n, 0) == s
  {
  }

  /** For every window, resolution and raster size: the bake keeps the range of the crop exactly when no
      output sample is read, in part, from outside it. */
  lemma KeepsRangeIff(w: nat, h: nat, roi: RoiCrop)
    requires roi.win >= 1 && w >= 1 && h >= 1
    ensures KeepsRange(w, h, roi) <==> !Escapes(w, h, roi)
  {
    hide EscapesAt, Passes, CropBounded, Bounded, Resampled;
    if Escapes(w, h, roi) {
      var ox: nat, oy: nat :| ox < roi.outN && oy < roi.outN && EscapesAt(w, h, roi, ox, oy);
      ProbeIsFlatInside(w, h, roi);
      EscapeShows(w, h, roi, ox, oy);
      assert |Probe(w, h, roi)| == w * h;
    } else {
      forall s: seq<Sample>, lo: real, hi: real | |s| == w * h && CropBounded(s, w, roi, lo, hi)
        ensures Bounded(Passes(Resampled(s, w, h, roi), roi.outN, MAX_PASSES), lo, hi)
      {
        FilledWithoutEscape(s, w, h, roi, lo, hi);
      }
    }
  }

  // ----- Windows that do not escape -----

  /** Every column of the window is a column of the raster, and it starts at a row of the raster. */
  predicate OwnColumns(w: nat, h: nat, roi: RoiCrop) {
    roi.x0 + roi.win <= w && roi.y0 < h
  }

  lemma PixelAtHome(w: nat, h: nat, roi: RoiCrop, p: Pixel)
    requires w >= 1
    requires p.weight == 0.0 || BufferIndex(w, p) >= w * h || (p.x < w && InCrop(roi, p.x, p.y))
    ensures !Strays(w, h, roi, p)
  {
    if p.x < w {
      QuotientUnique(w, BufferIndex(w, p), p.y, p.x);
    }
  }

  /** Rows below the raster are beyond the end of the buffer. */
  lemma BelowTheBuffer(w: nat, h: nat, p: Pixel)
    requires p.y >= h
    ensures BufferIndex(w, p) >= w * h
  {
    IntProductMonotone(h, p.y, w);
  }

  /** Where the four pixels of an output sample are: the nearest ones in the window, and the neighbours
      either in the window too, without weight, or held back inside the raster. */
  lemma FootprintInWindow(w: nat, h: nat, roi: RoiCrop, ox: nat, oy: nat) returns (x0: nat, x1: nat, y0: nat, y1: nat)
    requires roi.win >= 1 && w >= 1 && h >= 1 && ox < roi.outN && oy < roi.outN
    ensures var f := Footprint(w, h, roi, ox, oy);
      && f[0].x == f[2].x == x0 && f[1].x == f[3].x == x1
      && f[0].y == f[1].y == y0 && f[2].y == f[3].y == y1
      && roi.x0 <= x0 < roi.x0 + roi.win && roi.y0 <= y0 < roi.y0 + roi.win
      && x1 == Min(x0 + 1, w - 1) && y1 == Min(y0 + 1, h - 1)
      && (x0 == roi.x0 + roi.win - 1 ==> f[1].weight == f[3].weight == 0.0)
      && (y0 == roi.y0 + roi.win - 1 ==> f[2].weight == f[3].weight == 0.0)
  {
    hide Position, Weight;
    var px, py := Position(roi.x0, ox, roi.outN, roi.win), Position(roi.y0, oy, roi.outN, roi.win);
    AxisWeight(roi.x0, ox, roi.outN, roi.win);
    AxisWeight(roi.y0, oy, roi.outN, roi.win);
    x0, y0 := px.Floor, py.Floor;
    x1, y1 := Min(x0 + 1, w - 1), Min(y0 + 1, h - 1);
    var fx, fy := px - x0 as real, py - y0 as real;
    WeightSigned(fx, 1.0 - fy);
    WeightSigned(1.0 - fx, fy);
    WeightSigned(fx, fy);
  }

  /** A window with only columns of the raster never escapes, however far it reaches below the raster. */
  lemma OwnColumnsKeep(w: nat, h: nat, roi: RoiCrop)
    requires roi.win >= 1 && w >= 1 && h >= 1 && OwnColumns(w, h, roi)
    ensures !Escapes(w, h, roi)
  {
    hide Footprint, Strays, Reach, BufferIndex;
    forall ox: nat, oy: nat | ox < roi.outN && oy < roi.outN ensures !EscapesAt(w, h, roi, ox, oy) {
      var f := Footprint(w, h, roi, ox, oy);
      var x0, x1, y0, y1 := FootprintInWindow(w, h, roi, ox, oy);
      forall k | 0 <= k < 4 ensures !Strays(w, h, roi, f[k]) {
        if f[k].y >= h {
          BelowTheBuffer(w, h, f[k]);
        }
        PixelAtHome(w, h, roi, f[k]);
      }
    }
  }

  /** A window that starts in the last row never escapes either: to the east there is no later row to read. */
  lemma LastRowKeeps(w: nat, h: nat, roi: RoiCrop)
    requires roi.win >= 1 && w >= 1 && h >= 1 && roi.x0 < w && roi.y0 == h - 1
    ensures !Escapes(w, h, roi)
  {
    hide Footprint, Strays, Reach, BufferIndex;
    forall ox: nat, oy: nat | ox < roi.outN && oy < roi.outN ensures !EscapesAt(w, h, roi, ox, oy) {
      var f := Footprint(w, h, roi, ox, oy);
      var x0, x1, y0, y1 := FootprintInWindow(w, h, roi, ox, oy);
      forall k | 0 <= k < 4 ensures !Strays(w, h, roi, f[k]) {
        if f[k].y >= h {
          BelowTheBuffer(w, h, f[k]);
        }
        BeyondTheLastRow(w, h, f[k]);
        PixelAtHome(w, h, roi, f[k]);
      }
    }
  }

  lemma BeyondTheLastRow(w: nat, h: nat, p: Pixel)
    requires h >= 1
    ensures p.y == h - 1 && p.x >= w ==> BufferIndex(w, p) >= w * h
  {
    assert (h - 1) * w == w * h - w;
  }

  /** One output sample reads the window's first pixel and nothing else. */
  lemma SingleSampleKeeps(w: nat, h: nat, roi: RoiCrop)
    requires roi.win >= 1 && w >= 1 && h >= 1 && roi.x0 < w && roi.outN == 1
    ensures !Escapes(w, h, roi)
  {
    hide Strays, Reach;
    assert Position(roi.x0, 0, 1, roi.win) == roi.x0 as real && Position(roi.y0, 0, 1, roi.win) == roi.y0 as real;
    var f := Footprint(w, h, roi, 0, 0);
    forall k | 0 <= k < 4 ensures !Strays(w, h, roi, f[k]) {
      assert k > 0 ==> f[k].weight == 0.0;
      PixelAtHome(w, h, roi, f[k]);
    }
    assert !EscapesAt(w, h, roi, 0, 0);
  }

  // ----- Windows that do -----

  lemma LastPosition(start: nat, n: nat, win: nat)
    requires n >= 2 && win >= 1
    ensures Position(start, n - 1, n, win) == (start + win - 1) as real
    ensures Position(start, 0, n, win) == start as real
  {
    var d := (n - 1) as real;
    assert d / d == 1.0;
  }

  /** A window that overhangs the east edge, with a row below its first, escapes: its last column is read
      from the start of the next row. */
  lemma OverhangEscapes(w: nat, h: nat, roi: RoiCrop)
    requires 3 <= roi.win <= w && roi.outN >= 2
    requires roi.x0 < w < roi.x0 + roi.win && roi.y0 + 1 < h
    ensures Escapes(w, h, roi)
  {
    LastPosition(roi.x0, roi.outN, roi.win);
    LastPosition(roi.y0, roi.outN, roi.win);
    var ox := roi.outN - 1;
    var f := Footprint(w, h, roi, ox, 0);
    FootprintWeights(w, h, roi, ox, 0);
    assert f[0] == Pixel(roi.x0 + roi.win - 1, roi.y0, 1.0);
    var i, column := BufferIndex(w, f[0]), roi.x0 + roi.win - 1 - w;
    assert i == (roi.y0 + 1) * w + column;
    QuotientUnique(w, i, roi.y0 + 1, column);
    IntProductMonotone(roi.y0 + 2, h, w);
    assert (roi.y0 + 2) * w == (roi.y0 + 1) * w + w;
    assert Strays(w, h, roi, f[0]);
    StrayEscapes(w, h, roi, ox, 0, 0);
  }

  lemma ReachAtLeast(w: nat, h: nat, f: seq<Pixel>, k: nat)
    requires |f| == 4 && (forall i :: 0 <= i < 4 ==> f[i].weight >= 0.0) && k < 4
    requires BufferIndex(w, f[k]) < w * h
    ensures Reach(w, h, f, 4) >= f[k].weight
  {
    assert Reach(w, h, f, 1) >= Reach(w, h, f, 0);
    assert Reach(w, h, f, 2) >= Reach(w, h, f, 1);
    assert Reach(w, h, f, 3) >= Reach(w, h, f, 2);
    assert Reach(w, h, f, 4) >= Reach(w, h, f, 3);
    assert Reach(w, h, f, k + 1) >= f[k].weight;
  }

  /** A pixel outside the crop with enough weight is enough. */
  lemma StrayEscapes(w: nat, h: nat, roi: RoiCrop, ox: nat, oy: nat, k: nat)
    requires roi.win >= 1 && w >= 1 && h >= 1 && ox < roi.outN && oy < roi.outN && k < 4
    requires var p := Footprint(w, h, roi, ox, oy)[k]; p.weight > MIN_WEIGHT && Strays(w, h, roi, p)
    ensures Escapes(w, h, roi)
  {
    hide Footprint;
    FootprintWeights(w, h, roi, ox, oy);
    ReachAtLeast(w, h, Footprint(w, h, roi, ox, oy), k);
    assert EscapesAt(w, h, roi, ox, oy);
  }

  // ----- What a caller can check: the centre and the size of the raster -----

  predicate CropInRaster(roi: RoiCrop, w: nat, h: nat) {
    roi.x0 + roi.win <= w && roi.y0 + roi.win <= h
  }

  /** The window of a crop lies in the raster exactly when its centre is at least one pixel away from the
      east and south edges of a raster at least three pixels wide and high. */
  lemma CropInRasterIff(halfPx: int, cc: int, cr: int, b: Box, target: Option<nat>, w: nat, h: nat)
    requires b.x1 < w && b.y1 < h
    ensures CropInRaster(CropWindow(halfPx, cc, cr, b, target), w, h)
       <==> w >= 3 && h >= 3 && cc <= w - 2 && cr <= h - 2
  {
  }

  lemma OwnColumnsIff(halfPx: int, cc: int, cr: int, b: Box, target: Option<nat>, w: nat, h: nat)
    requires b.x1 < w && b.y1 < h
    ensures OwnColumns(w, h, CropWindow(halfPx, cc, cr, b, target)) <==> w >= 3 && cc <= w - 2 && cr <= h
  {
  }

  /** Where the window of a centre near or beyond an edge starts. */
  lemma WindowOffEdge(halfPx: int, cc: int, cr: int, b: Box, target: Option<nat>, w: nat, h: nat)
    requires w >= 3 && h >= 1 && b.x1 < w && b.y1 < h
    ensures var roi := CropWindow(halfPx, cc, cr, b, target);
      && (cc <= w - 2 ==> roi.x0 + roi.win <= w)
      && (cc >= w - 1 ==> roi.win == 3 && roi.x0 == cc - 1)
      && (cr >= h - 1 ==> roi.win == 3)
      && (cc >= w - 1 || cr >= h - 1 ==> roi.y0 == Max(cr - 1, 0))
      && roi.outN >= 1
  {
  }

  /** Three pixels in at most three samples: every sample is one pixel. */
  lemma LatticeFootprint(w: nat, h: nat, roi: RoiCrop, ox: nat, oy: nat) returns (x: nat, y: nat)
    requires roi.win == 3 && w >= 1 && h >= 1 && ox < roi.outN <= 3 && oy < roi.outN
    ensures var f := Footprint(w, h, roi, ox, oy);
      && f[0].x == x && f[0].y == y && f[1].weight == f[2].weight == f[3].weight == 0.0
      && roi.x0 <= x < roi.x0 + 3 && roi.y0 <= y < roi.y0 + 3
      && (ox == 0 && oy == 0 ==> x == roi.x0 && y == roi.y0 && f[0].weight == 1.0)
  {
    x := LatticePosition(roi.x0, ox, roi.outN);
    y := LatticePosition(roi.y0, oy, roi.outN);
  }

  lemma LatticePosition(start: nat, o: nat, n: nat) returns (p: nat)
    requires o < n <= 3
    ensures Position(start, o, n, 3) == p as real && start <= p < start + 3 && (o == 0 ==> p == start)
  {
    if o == 0 {
      p := start;
      assert 0 as real / Max(n - 1, 1) as real == 0.0;
    } else if n == 2 {
      p := start + 2;
    } else {
      p := start + o;
      assert o as real / 2 as real * 2.0 == o as real;
    }
  }

  /** Three pixels in more samples: some sample falls between the first two. */
  lemma BetweenPixels(start: nat, n: nat) returns (o: nat)
    requires n >= 4
    ensures o < n && start as real + 0.5 <= Position(start, o, n, 3) < (start + 1) as real
  {
    var m := n - 1;
    o := (m + 3) / 4;
    assert m <= 4 * o <= m + 3;
    var q := o as real / m as real;
    assert q * m as real == o as real;
    assert q >= 0.25 by {
      if q < 0.25 {
        RealProductStrict(q, 0.25, m as real);
      }
    }
    assert q < 0.5 by {
      if q >= 0.5 {
        RealProductMonotone(0.5, q, m as real);
      }
    }
  }

  /** With a few samples, a window below the buffer, or past its end, is not read at all. */
  lemma FewSamplesKeep(w: nat, h: nat, roi: RoiCrop)
    requires roi.win == 3 && w >= 1 && h >= 1 && roi.outN <= 3
    requires roi.y0 >= h || (roi.x0 >= w && roi.y0 * w + roi.x0 >= w * h)
    ensures !Escapes(w, h, roi)
  {
    hide Footprint, Reach;
    forall ox: nat, oy: nat | ox < roi.outN && oy < roi.outN ensures !EscapesAt(w, h, roi, ox, oy) {
      var x, y := LatticeFootprint(w, h, roi, ox, oy);
      var f := Footprint(w, h, roi, ox, oy);
      if roi.y0 >= h {
        BelowTheBuffer(w, h, f[0]);
      } else {
        IntProductMonotone(roi.y0, y, w);
      }
      assert forall k :: 0 <= k < 4 ==> !Strays(w, h, roi, f[k]);
    }
  }

  lemma EastWindowEscapes(w: nat, h: nat, roi: RoiCrop)
    requires roi.win == 3 && w >= 1 && h >= 1 && 1 <= roi.outN <= 3
    requires roi.x0 >= w && roi.y0 * w + roi.x0 < w * h
    ensures Escapes(w, h, roi)
  {
    hide Footprint;
    var x, y := LatticeFootprint(w, h, roi, 0, 0);
    assert BufferIndex(w, Footprint(w, h, roi, 0, 0)[0]) % w < w;
    StrayEscapes(w, h, roi, 0, 0, 0);
  }

  lemma FirstPosition(start: nat, n: nat)
    requires n >= 1
    ensures Position(start, 0, n, 3) == start as real
  {
    assert 0 as real / Max(n - 1, 1) as real == 0.0;
  }

  lemma Halves(a: real, b: real)
    requires a >= 0.5 && b >= 0.5
    ensures Weight(a, b) >= 0.25
  {
    RealProductMonotone(0.5, a, b);
  }

  /** Between pixels the neighbour to the south or east is held back inside the raster, and so outside a crop
      that starts beyond that edge. */
  lemma HeldBackEscapes(w: nat, h: nat, roi: RoiCrop)
    requires roi.win == 3 && w >= 1 && h >= 1 && roi.outN >= 4 && (roi.x0 >= w || roi.y0 >= h)
    ensures Escapes(w, h, roi)
  {
    hide Reach, Position, Escapes, Footprint;
    var ox := BetweenPixels(roi.x0, roi.outN);
    var oy := BetweenPixels(roi.y0, roi.outN);
    FirstPosition(roi.x0, roi.outN);
    FirstPosition(roi.y0, roi.outN);
    if roi.x0 < w {
      HeldBackPixel(w, h, roi, 0, oy);
      LastRowIsOutside(w, h, roi, Footprint(w, h, roi, 0, oy)[2]);
      StrayEscapes(w, h, roi, 0, oy, 2);
    } else if roi.y0 < h {
      HeldBackPixel(w, h, roi, ox, 0);
      LastColumnIsOutside(w, h, roi, Footprint(w, h, roi, ox, 0)[1]);
      StrayEscapes(w, h, roi, ox, 0, 1);
    } else {
      HeldBackPixel(w, h, roi, ox, oy);
      LastRowIsOutside(w, h, roi, Footprint(w, h, roi, ox, oy)[3]);
      StrayEscapes(w, h, roi, ox, oy, 3);
    }
  }

  /** The neighbours of a sample in the window's first pixel, and the weights they carry. */
  lemma HeldBackPixel(w: nat, h: nat, roi: RoiCrop, ox: nat, oy: nat)
    requires roi.win == 3 && w >= 1 && h >= 1 && ox < roi.outN && oy < roi.outN
    requires Position(roi.x0, ox, roi.outN, 3) == roi.x0 as real
      || roi.x0 as real + 0.5 <= Position(roi.x0, ox, roi.outN, 3) < (roi.x0 + 1) as real
    requires Position(roi.y0, oy, roi.outN, 3) == roi.y0 as real
      || roi.y0 as real + 0.5 <= Position(roi.y0, oy, roi.outN, 3) < (roi.y0 + 1) as real
    ensures var f := Footprint(w, h, roi, ox, oy);
      var fx, fy := Position(roi.x0, ox, roi.outN, 3) - roi.x0 as real, Position(roi.y0, oy, roi.outN, 3) - roi.y0 as real;
      && f[1].x == Min(roi.x0 + 1, w - 1) && f[1].y == roi.y0 && (fy == 0.0 ==> f[1].weight == fx)
      && f[2].x == roi.x0 && f[2].y == Min(roi.y0 + 1, h - 1) && (fx == 0.0 ==> f[2].weight == fy)
      && f[3].x == Min(roi.x0 + 1, w - 1) && f[3].y == Min(roi.y0 + 1, h - 1)
      && (fx >= 0.5 && fy >= 0.5 ==> f[3].weight >= 0.25)
  {
    hide Position, Weight;
    var fx, fy := Position(roi.x0, ox, roi.outN, 3) - roi.x0 as real, Position(roi.y0, oy, roi.outN, 3) - roi.y0 as real;
    assert Position(roi.x0, ox, roi.outN, 3).Floor == roi.x0 && Position(roi.y0, oy, roi.outN, 3).Floor == roi.y0;
    WeightByOne(fx);
    WeightByOne(fy);
    if fx >= 0.5 && fy >= 0.5 {
      Halves(fx, fy);
    }
  }

  lemma WeightByOne(a: real)
    ensures Weight(a, 1.0) == Weight(1.0, a) == a
  {
  }

  lemma LastRowIsOutside(w: nat, h: nat, roi: RoiCrop, p: Pixel)
    requires w >= 1 && h >= 1 && p.x < w && p.y == h - 1 && roi.y0 >= h && p.weight > 0.0
    ensures Strays(w, h, roi, p)
  {
    RowsFit(w, h, h - 1);
    QuotientUnique(w, BufferIndex(w, p), h - 1, p.x);
  }

  lemma LastColumnIsOutside(w: nat, h: nat, roi: RoiCrop, p: Pixel)
    requires w >= 1 && h >= 1 && p.x == w - 1 && p.y < h && roi.x0 >= w && p.weight > 0.0
    ensures Strays(w, h, roi, p)
  {
    RowsFit(w, h, p.y);
    QuotientUnique(w, BufferIndex(w, p), p.y, w - 1);
  }

  /** What a caller can tell from the centre, the raster's size and the resolution. Up to one pixel beyond the
      east and south edges: the centre is at least one pixel away from the east edge, or there is one sample, or
      no row below the window's first. Further off, every sample must be a pixel of its own, and beyond the east
      edge not even the first of them may wrap into the buffer. */
  predicate CentreKeeps(cc: int, cr: int, w: nat, h: nat, n: nat) {
    if cc <= w && cr <= h then cc <= w - 2 || n == 1 || h == 1 || cr == h
    else n <= 3 && (cc <= w || Max(cr - 1, 0) * w + cc - 1 >= w * h)
  }

  /** For every raster at least three pixels wide, every centre on or off it, and every resolution. */
  lemma CentreKeepsRangeIff(halfPx: int, cc: int, cr: int, b: Box, target: Option<nat>, w: nat, h: nat)
    requires w >= 3 && h >= 1 && b.x1 < w && b.y1 < h
    ensures var roi := CropWindow(halfPx, cc, cr, b, target);
      KeepsRange(w, h, roi) <==> CentreKeeps(cc, cr, w, h, roi.outN)
  {
    hide KeepsRange, Escapes, CropWindow;
    var roi := CropWindow(halfPx, cc, cr, b, target);
    assert roi.win >= 1 by { WindowIsSquare(halfPx, cc, cr, b, target); }
    KeepsRangeIff(w, h, roi);
    WindowOffEdge(halfPx, cc, cr, b, target, w, h);
    if cc <= w && cr <= h {
      NearCentreKeepsIff(halfPx, cc, cr, b, target, w, h);
    } else if roi.outN >= 4 {
      HeldBackEscapes(w, h, roi);
    } else if cc <= w || Max(cr - 1, 0) * w + cc - 1 >= w * h {
      FewSamplesKeep(w, h, roi);
    } else {
      EastWindowEscapes(w, h, roi);
    }
  }

  lemma WindowIsSquare(halfPx: int, cc: int, cr: int, b: Box, target: Option<nat>)
    ensures CropWindow(halfPx, cc, cr, b, target).win >= 1
  {
  }

  lemma NearCentreKeepsIff(halfPx: int, cc: int, cr: int, b: Box, target: Option<nat>, w: nat, h: nat)
    requires w >= 3 && h >= 1 && b.x1 < w && b.y1 < h && cc <= w && cr <= h
    ensures var roi := CropWindow(halfPx, cc, cr, b, target);
      !Escapes(w, h, roi) <==> cc <= w - 2 || roi.outN == 1 || h == 1 || cr == h
  {
    hide Escapes;
    var roi := CropWindow(halfPx, cc, cr, b, target);
    OwnColumnsIff(halfPx, cc, cr, b, target, w, h);
    if cc <= w - 2 {
      OwnColumnsKeep(w, h, roi);
    } else if roi.outN == 1 {
      SingleSampleKeeps(w, h, roi);
    } else if h == 1 || cr == h {
      LastRowKeeps(w, h, roi);
    } else {
      OverhangEscapes(w, h, roi);
    }
  }

  // ----- The whole bake -----

  /** Every elevation that is baked is finite and lies between the smallest and the largest measurement
      in the crop, for every centre at least one pixel away from the east edge, on or above the south edge. */
  lemma BakedElevationsWithinCrop(
    s: seq<Sample>, w: nat, h: nat, halfPx: int, cc: int, cr: int, target: Option<nat>, lo: real, hi: real)
    requires w >= 3 && h >= 1 && |s| == w * h && cc <= w - 2 && cr <= h
    requires Bakeable(s, w, h, halfPx, cc, cr, target)
    requires CropBounded(s, w, DemCrop(s, w, h, halfPx, cc, cr, target), lo, hi)
    ensures var roi := DemCrop(s, w, h, halfPx, cc, cr, target);
      AllWithin(Passes(Resampled(s, w, h, roi), roi.outN, MAX_PASSES), lo, hi)
  {
    hide ValidDataBounds, RoiSamples, MostlyNoData, Fillable, Passes, CropBounded, Escapes, AllWithin;
    BoundsAreTight(s, w, h);
    var roi := DemCrop(s, w, h, halfPx, cc, cr, target);
    OwnColumnsIff(halfPx, cc, cr, ValidDataBounds(s, w, h).value, target, w, h);
    OwnColumnsKeep(w, h, roi);
    BakedWithoutEscape(s, w, h, halfPx, cc, cr, target, lo, hi);
  }

  lemma {:induction false} CropRowsMeasured(s: seq<Sample>, w: nat, h: nat, roi: RoiCrop, y0: nat, y1: nat)
    requires |s| == w * h && y1 <= h && forall i :: 0 <= i < |s| ==> s[i].Height?
    ensures forall i :: 0 <= i < |CropRows(s, w, h, roi, y0, y1)| ==> CropRows(s, w, h, roi, y0, y1)[i].Height?
    decreases y1
  {
    if y1 > y0 {
      CropRowsMeasured(s, w, h, roi, y0, y1 - 1);
      RowsFit(w, h, y1 - 1);
    }
  }

  /** A raster without voids has its whole rectangle for its box, and no crop of it is rejected. */
  lemma MeasuredIsAccepted(s: seq<Sample>, w: nat, h: nat, roi: RoiCrop)
    requires w >= 1 && h >= 1 && |s| == w * h && forall i :: 0 <= i < |s| ==> s[i].Height?
    ensures ValidDataBounds(s, w, h) == Some(Box(0, 0, w - 1, h - 1))
    ensures !MostlyNoData(RoiSamples(s, w, h, roi), 0.05)
  {
    hide ValidDataBounds, CropRows;
    BoundsAreTight(s, w, h);
    RowsFit(w, h, h - 1);
    assert Sampled(s, w, 0, 0).Height? && Sampled(s, w, w - 1, h - 1).Height?;
    var b := ValidDataBounds(s, w, h).value;
    assert Holds(b, 0, 0) && Holds(b, w - 1, h - 1);
    CropRowsMeasured(s, w, h, roi, roi.y0, Min(roi.y0 + roi.win, h));
    NoVoidsIff(RoiSamples(s, w, h, roi));
  }

  /** A resolution is a 32-bit number. */
  const MAX_RESOLUTION: nat := 0xffff_ffff

  /** Samples of three pixels lie on multiples of a fraction that is far above the least weight. */
  lemma FractionOfSample(start: nat, o: nat, n: nat)
    requires 2 <= n <= MAX_RESOLUTION && o < n
    ensures var p := Position(start, o, n, 3); var f := p - p.Floor as real;
      && 0.0 <= f && 1.0 - f > MIN_WEIGHT && (f > MIN_WEIGHT || f == 0.0)
  {
    var d := n - 1;
    var p := Position(start, o, n, 3);
    var q := o as real / d as real;
    assert q * d as real == o as real;
    var i := p.Floor;
    var k := 2 * o - (i - start) * d;
    var f := p - i as real;
    FractionTimes(q, d, o, i - start);
    assert f == 2.0 * q - (i - start) as real;
    assert f * d as real == k as real;
    assert 0.0 <= f < 1.0;
    SmallFraction(f, d, k);
  }

  lemma FractionTimes(q: real, d: nat, o: nat, j: int)
    requires q * d as real == o as real
    ensures (2.0 * q - j as real) * d as real == (2 * o - j * d) as real
  {
    assert (2.0 * q - j as real) * d as real == 2.0 * (q * d as real) - j as real * d as real;
    assert (j * d) as real == j as real * d as real;
  }

  lemma ProductBelow(f: real, g: real, r: real, fr: real, gr: real)
    requires f < g && 0.0 < r && fr == f * r && gr == g * r
    ensures fr < gr
  {
    RealProductStrict(f, g, r);
  }

  lemma LeastWeightIsSmall(f: real, r: real, fr: real)
    requires f <= MIN_WEIGHT && 0.0 < r <= 4_294_967_295.0 && fr == f * r
    ensures fr < 1.0
  {
    var m := MIN_WEIGHT * r;
    assert m == 0.000_000_000_001 * r;
    if f < MIN_WEIGHT {
      ProductBelow(f, MIN_WEIGHT, r, fr, m);
    }
  }

  lemma SmallFraction(f: real, d: nat, k: int)
    requires 1 <= d < MAX_RESOLUTION && f * d as real == k as real && 0.0 <= f < 1.0
    ensures 1.0 - f > MIN_WEIGHT && (f > MIN_WEIGHT || f == 0.0)
  {
    var r, kr := d as real, k as real;
    var g := 1.0 - f;
    assert g * r == r - kr by { Complement(f, r, kr); }
    ProductBelow(f, 1.0, r, kr, r);
    if g <= MIN_WEIGHT {
      LeastWeightIsSmall(g, r, r - kr);
    }
    assert k < d;
    assert r - kr == (d - k) as real;
    if f <= MIN_WEIGHT && f > 0.0 {
      LeastWeightIsSmall(f, r, kr);
      ProductBelow(0.0, f, r, 0.0, kr);
    }
  }

  lemma Complement(f: real, r: real, fr: real)
    requires fr == f * r
    ensures (1.0 - f) * r == r - fr
  {
  }

  lemma WeightsAddUp(fx: real, fy: real)
    ensures Weight(1.0 - fx, fy) + Weight(fx, fy) == fy
  {
    assert (1.0 - fx) * fy == fy - fx * fy;
  }

  lemma InBuffer(w: nat, h: nat, p: Pixel)
    requires p.x < 2 * w && (p.y + 2 <= h || (p.y < h && p.x < w))
    ensures BufferIndex(w, p) < w * h
  {
    RowsFit(w, h, p.y);
    if p.y + 2 <= h {
      IntProductMonotone(p.y + 2, h, w);
      assert (p.y + 2) * w == p.y * w + w + w;
    }
  }

  lemma PairReach(w: nat, h: nat, f: seq<Pixel>, a: nat, b: nat)
    requires |f| == 4 && (forall i :: 0 <= i < 4 ==> f[i].weight >= 0.0) && a < b < 4
    requires BufferIndex(w, f[a]) < w * h && BufferIndex(w, f[b]) < w * h
    ensures Reach(w, h, f, 4) >= f[a].weight + f[b].weight
  {
    hide BufferIndex;
    assert Reach(w, h, f, 1) >= Reach(w, h, f, 0);
    assert Reach(w, h, f, 2) >= Reach(w, h, f, 1);
    assert Reach(w, h, f, 3) >= Reach(w, h, f, 2);
    assert Reach(w, h, f, 4) >= Reach(w, h, f, 3);
    assert Reach(w, h, f, b + 1) == Reach(w, h, f, b) + f[b].weight;
    assert Reach(w, h, f, a + 1) >= f[a].weight;
    assert Reach(w, h, f, b) >= Reach(w, h, f, a + 1);
  }

  /** The pixel column or row an output sample falls in. */
  function PixelOf(start: nat, o: nat, n: nat): int {
    Position(start, o, n, 3).Floor
  }

  /** An output column that is measured in the raster's last row too. */
  predicate GoodColumn(w: nat, roi: RoiCrop, ox: nat) {
    PixelOf(roi.x0, ox, roi.outN) < w || Position(roi.x0, ox, roi.outN, 3) > PixelOf(roi.x0, ox, roi.outN) as real
  }

  /** A window of three pixels that starts inside the raster. */
  ghost predicate Overhanging(w: nat, h: nat, roi: RoiCrop) {
    roi.win == 3 && w >= 3 && roi.x0 < w && roi.y0 + 2 <= h && 2 <= roi.outN <= MAX_RESOLUTION
  }

  /** In all rows but the raster's last one every output sample is measured; in the last one, in good columns. */
  lemma SampleIsMeasured(w: nat, h: nat, roi: RoiCrop, ox: nat, oy: nat)
    requires Overhanging(w, h, roi) && ox < roi.outN && oy < roi.outN
    requires PixelOf(roi.y0, oy, roi.outN) < h
    requires PixelOf(roi.y0, oy, roi.outN) + 2 <= h || GoodColumn(w, roi, ox)
    ensures Reach(w, h, Footprint(w, h, roi, ox, oy), 4) > MIN_WEIGHT
  {
    hide Position, Weight, Reach, BufferIndex;
    var n := roi.outN;
    var px, py := Position(roi.x0, ox, n, 3), Position(roi.y0, oy, n, 3);
    AxisWeight(roi.x0, ox, n, 3);
    AxisWeight(roi.y0, oy, n, 3);
    var fx, fy := px - px.Floor as real, py - py.Floor as real;
    FractionOfSample(roi.x0, ox, n);
    FractionOfSample(roi.y0, oy, n);
    FootprintWeights(w, h, roi, ox, oy);
    var f := Footprint(w, h, roi, ox, oy);
    if py.Floor + 2 <= h || px.Floor < w {
      InBuffer(w, h, f[0]);
      InBuffer(w, h, f[1]);
      PairReach(w, h, f, 0, 1);
      WeightsAddUp(fx, 1.0 - fy);
    } else {
      InBuffer(w, h, f[1]);
      InBuffer(w, h, f[3]);
      PairReach(w, h, f, 1, 3);
      ColumnAddsUp(fx, fy);
    }
  }

  lemma ColumnAddsUp(fx: real, fy: real)
    ensures Weight(fx, 1.0 - fy) + Weight(fx, fy) == fx
  {
    assert fx * (1.0 - fy) == fx - fx * fy;
  }

  lemma StepBack(start: nat, o: nat, n: nat)
    requires n >= 66 && 0 < o < n
    ensures 0.0 < Position(start, o, n, 3) - Position(start, o - 1, n, 3) <= 0.5
  {
    var d := (n - 1) as real;
    assert o as real / d - (o - 1) as real / d == 1.0 / d;
    var step := 1.0 / d;
    assert step * d == 1.0;
    assert 0.0 < step by {
      if step <= 0.0 {
        RealProductMonotone(step, 0.0, d);
      }
    }
    assert step <= 0.25 by {
      if step > 0.25 {
        RealProductStrict(0.25, step, d);
      }
    }
  }

  /** Of a bad column the one before it is good. */
  lemma GoodColumnNear(w: nat, roi: RoiCrop, ox: nat) returns (gx: nat)
    requires roi.x0 < w && roi.outN >= 66 && ox < roi.outN
    ensures gx <= ox <= gx + 1 && GoodColumn(w, roi, gx)
  {
    gx := ox;
    if !GoodColumn(w, roi, ox) {
      FirstPosition(roi.x0, roi.outN);
      assert ox > 0;
      StepBack(roi.x0, ox, roi.outN);
      gx := ox - 1;
    }
  }

  /** Of a row below the raster the one before it is not. */
  lemma RasterRowNear(h: nat, roi: RoiCrop, oy: nat) returns (gy: nat)
    requires roi.win == 3 && roi.y0 + 2 <= h && roi.outN >= 66 && oy < roi.outN
    ensures gy <= oy <= gy + 1 && PixelOf(roi.y0, gy, roi.outN) < h
  {
    gy := oy;
    PositionInWindow(roi.y0, oy, roi.outN, 3);
    if PixelOf(roi.y0, oy, roi.outN) >= h {
      FirstPosition(roi.y0, roi.outN);
      assert oy > 0;
      StepBack(roi.y0, oy, roi.outN);
      gy := oy - 1;
    }
  }

  /** A measured sample near every sample. */
  lemma MeasuredNear(w: nat, h: nat, roi: RoiCrop, ox: nat, oy: nat) returns (gx: nat, gy: nat)
    requires Overhanging(w, h, roi) && ox < roi.outN && oy < roi.outN
    ensures gx <= ox <= gx + 64 && gy <= oy <= gy + 64
    ensures Reach(w, h, Footprint(w, h, roi, gx, gy), 4) > MIN_WEIGHT
  {
    hide Position, Reach, Footprint, GoodColumn;
    if roi.outN <= 65 {
      gx, gy := 0, 0;
      FirstPosition(roi.y0, roi.outN);
      assert PixelOf(roi.y0, 0, roi.outN) == roi.y0;
    } else {
      gx := GoodColumnNear(w, roi, ox);
      gy := RasterRowNear(h, roi, oy);
    }
    SampleIsMeasured(w, h, roi, gx, gy);
  }

  /** So the voids at the raster's south-east corner are filled. */
  lemma OverhangIsFillable(w: nat, h: nat, roi: RoiCrop)
    requires Overhanging(w, h, roi)
    ensures Fillable(Resampled(Probe(w, h, roi), w, h, roi), roi.outN)
  {
    hide Footprint, Reach, Bilinear, Probe, Position;
    var n, resampled := roi.outN, Resampled(Probe(w, h, roi), w, h, roi);
    forall x, y | InGrid(n, x, y) ensures Near(resampled, n, x, y, MAX_PASSES) {
      var gx, gy := MeasuredNear(w, h, roi, x, y);
      ProbeResamples(w, h, roi, gx, gy);
      CellIndex(n, gx, gy);
      assert resampled[Index(n, gx, gy)] == Bilinear(Probe(w, h, roi), w, h, roi, gx, gy);
      assert MeasuredWithin(resampled, n, x, y, MAX_PASSES, gx, gy);
    }
  }

  /** Whatever the raster, every elevation of an accepted bake lies within the bounds of its crop. */
  ghost predicate AcceptedKeep(w: nat, h: nat, halfPx: int, cc: int, cr: int, target: Option<nat>)
    requires w >= 1 && h >= 1
  {
    forall s: seq<Sample>, lo: real, hi: real :: |s| == w * h ==> Faithful(s, w, h, halfPx, cc, cr, target, lo, hi)
  }

  /** If the raster is accepted, and the bounds are bounds of the crop, they are bounds of what is baked. */
  ghost predicate Faithful(
    s: seq<Sample>, w: nat, h: nat, halfPx: int, cc: int, cr: int, target: Option<nat>, lo: real, hi: real)
    requires w >= 1 && h >= 1
  {
    Bakeable(s, w, h, halfPx, cc, cr, target) ==>
      var roi := DemCrop(s, w, h, halfPx, cc, cr, target);
      CropBounded(s, w, roi, lo, hi) ==> AllWithin(Passes(Resampled(s, w, h, roi), roi.outN, MAX_PASSES), lo, hi)
  }

  /** A raster that is flat inside the crop, is accepted, and is baked with elevations from outside it. */
  lemma OverhangBakesForeignGround(w: nat, h: nat, halfPx: int, cc: int, cr: int, target: Option<nat>)
    requires w >= 3 && h >= 2 && w - 1 <= cc <= w && cr < h && (target.Some? ==> 2 <= target.value <= MAX_RESOLUTION)
    ensures var roi := CropWindow(halfPx, cc, cr, Box(0, 0, w - 1, h - 1), target);
      var s := Probe(w, h, roi);
      && Bakeable(s, w, h, halfPx, cc, cr, target) && DemCrop(s, w, h, halfPx, cc, cr, target) == roi
      && CropBounded(s, w, roi, 0.0, 0.0)
      && !AllWithin(Passes(Resampled(s, w, h, roi), roi.outN, MAX_PASSES), 0.0, 0.0)
  {
    hide ValidDataBounds, RoiSamples, MostlyNoData, Fillable, Passes, CropBounded, EscapesAt, Bilinear;
    var roi := CropWindow(halfPx, cc, cr, Box(0, 0, w - 1, h - 1), target);
    var s := Probe(w, h, roi);
    assert roi.x0 == cc - 1 && roi.y0 == Max(cr - 1, 0) && roi.win == 3;
    MeasuredIsAccepted(s, w, h, roi);
    ProbeIsFlatInside(w, h, roi);
    OverhangIsFillable(w, h, roi);
    OverhangEscapes(w, h, roi);
    var ox: nat, oy: nat :| ox < roi.outN && oy < roi.outN && EscapesAt(w, h, roi, ox, oy);
    EscapeShows(w, h, roi, ox, oy);
    OutOfBoundsIsNotWithin(Passes(Resampled(s, w, h, roi), roi.outN, MAX_PASSES), 0.0, 0.0);
  }

  /** End to end, for every raster at least three pixels wide, every centre up to one pixel beyond its east and
      south edges, and every resolution: accepted bakes stay within the bounds of their crop exactly when the
      centre is at least one pixel away from the east edge, or there is one sample, or no row below the
      window's first. */
  lemma AcceptedBakesKeepRangeIff(w: nat, h: nat, halfPx: int, cc: int, cr: int, target: Option<nat>)
    requires w >= 3 && h >= 1 && cc <= w && cr <= h && (target.Some? ==> target.value <= MAX_RESOLUTION)
    ensures AcceptedKeep(w, h, halfPx, cc, cr, target)
       <==> cc <= w - 2 || (target.Some? && target.value <= 1) || h == 1 || cr == h
  {
    if cc <= w - 2 || (target.Some? && target.value <= 1) || h == 1 || cr == h {
      forall s: seq<Sample>, lo: real, hi: real | |s| == w * h ensures Faithful(s, w, h, halfPx, cc, cr, target, lo, hi) {
        AcceptedBakeKeeps(s, w, h, halfPx, cc, cr, target, lo, hi);
      }
    } else {
      var s := UnfaithfulRaster(w, h, halfPx, cc, cr, target);
    }
  }

  lemma UnfaithfulRaster(w: nat, h: nat, halfPx: int, cc: int, cr: int, target: Option<nat>) returns (s: seq<Sample>)
    requires w >= 3 && h >= 2 && w - 1 <= cc <= w && cr < h && (target.Some? ==> 2 <= target.value <= MAX_RESOLUTION)
    ensures |s| == w * h && !Faithful(s, w, h, halfPx, cc, cr, target, 0.0, 0.0)
  {
    hide Bakeable, CropBounded, AllWithin, Passes, Resampled, ValidDataBounds;
    s := Probe(w, h, CropWindow(halfPx, cc, cr, Box(0, 0, w - 1, h - 1), target));
    OverhangBakesForeignGround(w, h, halfPx, cc, cr, target);
  }

  lemma AcceptedBakeKeeps(
    s: seq<Sample>, w: nat, h: nat, halfPx: int, cc: int, cr: int, target: Option<nat>, lo: real, hi: real)
    requires w >= 3 && h >= 1 && |s| == w * h && cc <= w && cr <= h
    requires cc <= w - 2 || (target.Some? && target.value <= 1) || h == 1 || cr == h
    ensures Faithful(s, w, h, halfPx, cc, cr, target, lo, hi)
  {
    hide ValidDataBounds, RoiSamples, MostlyNoData, Fillable, Passes, CropBounded, Escapes, AllWithin;
    if Bakeable(s, w, h, halfPx, cc, cr, target) && CropBounded(s, w, DemCrop(s, w, h, halfPx, cc, cr, target), lo, hi) {
      BoundsAreTight(s, w, h);
      NearCentreKeepsIff(halfPx, cc, cr, ValidDataBounds(s, w, h).value, target, w, h);
      BakedWithoutEscape(s, w, h, halfPx, cc, cr, target, lo, hi);
    }
  }

  lemma OutOfBoundsIsNotWithin(out: seq<Sample>, lo: real, hi: real)
    requires !Bounded(out, lo, hi)
    ensures !AllWithin(out, lo, hi)
  {
  }
}
