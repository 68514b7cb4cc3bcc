/** What resampling computes, apart from the way it is computed: every bilinear surface is reproduced exactly, and a
    void counts as if it held the result. */
module TerrainSampling {
  import opened Arithmetic
  import opened TerrainBake
  import opened VoidFill

  /** `p` is where sample `o` of `n` falls when the samples are spread evenly over a window of `win` pixels from
      `start`, first on first and last on last. */
  predicate FallsAt(p: real, start: nat, o: nat, n: nat, win: nat) {
    if n <= 1 then p == start as real
    else (n - 1) as real * (p - start as real) == o as real * (win - 1) as real
  }

  lemma FallsAtPosition(p: real, start: nat, o: nat, n: nat, win: nat)
    requires win >= 1 && o < n
    ensures FallsAt(p, start, o, n, win) <==> p == Position(start, o, n, win)
  {
    var reach := (win - 1) as real;
    if n > 1 {
      var d := (n - 1) as real;
      var q := o as real / d;
      assert q * d == o as real;
      var exact := Position(start, o, n, win);
      assert exact == start as real + q * reach;
      assert d * (q * reach) == o as real * reach;
      if p != exact {
        ProductDiffers(d, p - start as real, q * reach);
      }
    } else {
      assert o as real / 1.0 == 0.0 && 0.0 * reach == 0.0;
    }
  }

  lemma ProductDiffers(d: real, a: real, b: real)
    requires d > 0.0 && a != b
    ensures d * a != d * b
  {
    if a < b {
      RealProductStrict(a, b, d);
    } else {
      RealProductStrict(b, a, d);
    }
  }

  // ----- The weights -----

  lemma Products(fx: real, fy: real)
    ensures var p := fx * fy;
      && Weight(1.0 - fx, 1.0 - fy) == 1.0 - fx - fy + p && Weight(fx, 1.0 - fy) == fx - p
      && Weight(1.0 - fx, fy) == fy - p && Weight(fx, fy) == p
  {
  }

  lemma WeightsSumToOne(fx: real, fy: real)
    ensures Weight(1.0 - fx, 1.0 - fy) + Weight(fx, 1.0 - fy) + Weight(1.0 - fx, fy) + Weight(fx, fy) == 1.0
  {
    Products(fx, fy);
  }

  // ----- What the four taps add up to -----

  /** What a tap adds: nothing, if it shows no height. */
  function Share(t: Tap): (real, real) {
    match t.sample
    case Void => (0.0, 0.0)
    case Height(v) => (Part(v, t.weight), t.weight)
  }

  /** Products under a name, so that equal factors give equal products. */
  function Part(v: real, weight: real): real {
    v * weight
  }

  function Mix(u: real, v: real, f: real): real {
    u * (1.0 - f) + v * f
  }

  lemma FourShares(taps: seq<Tap>)
    requires |taps| == 4
    ensures Blend(taps, 4).0 == Share(taps[0]).0 + Share(taps[1]).0 + Share(taps[2]).0 + Share(taps[3]).0
    ensures Blend(taps, 4).1 == Share(taps[0]).1 + Share(taps[1]).1 + Share(taps[2]).1 + Share(taps[3]).1
  {
    OneShare((0.0, 0.0), taps[0]);
    OneShare(Blend(taps, 1), taps[1]);
    OneShare(Blend(taps, 2), taps[2]);
    OneShare(Blend(taps, 3), taps[3]);
    hide PlusTap, Share;
    assert Blend(taps, 0) == (0.0, 0.0);
    assert Blend(taps, 1) == PlusTap(Blend(taps, 0), taps[0]);
    assert Blend(taps, 2) == PlusTap(Blend(taps, 1), taps[1]);
    assert Blend(taps, 3) == PlusTap(Blend(taps, 2), taps[2]);
    assert Blend(taps, 4) == PlusTap(Blend(taps, 3), taps[3]);
  }

  lemma OneShare(sum: (real, real), t: Tap)
    ensures PlusTap(sum, t).0 == sum.0 + Share(t).0 && PlusTap(sum, t).1 == sum.1 + Share(t).1
  {
    match t.sample
    case Void =>
    case Height(v) => assert Part(v, t.weight) == v * t.weight;
  }

  // ----- Bilinear surfaces -----

  function Surface(a: real, b: real, c: real, d: real, x: real, y: real): real {
    a + b * x + c * y + d * (x * y)
  }

  lemma Along(p: real, q: real, x: real, f: real)
    ensures Mix(p + q * x, p + q * (x + 1.0), f) == p + q * (x + f)
  {
    var qx, qf := q * x, q * f;
    assert q * (x + 1.0) == qx + q && q * (x + f) == qx + qf;
    assert (p + qx) * (1.0 - f) == p + qx - (p + qx) * f;
    assert (p + qx + q) * f == (p + qx) * f + qf;
  }

  lemma Straight(u: real, v: real, m: real, p: real, q: real, x: real, f: real)
    requires u == p + q * x && v == p + q * (x + 1.0) && m == p + q * (x + f)
    ensures Mix(u, v, f) == m
  {
    Along(p, q, x, f);
  }

  lemma AlongX(a: real, b: real, c: real, d: real, x: real, y: real, f: real)
    ensures Mix(Surface(a, b, c, d, x, y), Surface(a, b, c, d, x + 1.0, y), f) == Surface(a, b, c, d, x + f, y)
  {
    InX(a, b, c, d, x, y);
    InX(a, b, c, d, x + 1.0, y);
    InX(a, b, c, d, x + f, y);
    hide Surface, Mix;
    Straight(Surface(a, b, c, d, x, y), Surface(a, b, c, d, x + 1.0, y), Surface(a, b, c, d, x + f, y), a + c * y, b + d * y, x, f);
  }

  lemma InX(a: real, b: real, c: real, d: real, x: real, y: real)
    ensures Surface(a, b, c, d, x, y) == (a + c * y) + (b + d * y) * x
  {
    assert d * (x * y) == (d * y) * x;
  }

  lemma AlongY(a: real, b: real, c: real, d: real, x: real, y: real, f: real)
    ensures Mix(Surface(a, b, c, d, x, y), Surface(a, b, c, d, x, y + 1.0), f) == Surface(a, b, c, d, x, y + f)
  {
    InY(a, b, c, d, x, y);
    InY(a, b, c, d, x, y + 1.0);
    InY(a, b, c, d, x, y + f);
    hide Surface, Mix;
    Straight(Surface(a, b, c, d, x, y), Surface(a, b, c, d, x, y + 1.0), Surface(a, b, c, d, x, y + f), a + b * x, c + d * x, y, f);
  }

  lemma InY(a: real, b: real, c: real, d: real, x: real, y: real)
    ensures Surface(a, b, c, d, x, y) == (a + b * x) + (c + d * x) * y
  {
    assert d * (x * y) == (d * x) * y;
  }

  lemma Factored(u: real, v: real, f: real, g: real)
    ensures Part(u, Weight(1.0 - f, g)) + Part(v, Weight(f, g)) == Part(Mix(u, v, f), g)
  {
    assert u * ((1.0 - f) * g) == (u * (1.0 - f)) * g;
    assert v * (f * g) == (v * f) * g;
  }

  lemma FourCorners(a: real, b: real, c: real, d: real, x: real, y: real, fx: real, fy: real)
    ensures Part(Surface(a, b, c, d, x, y), Weight(1.0 - fx, 1.0 - fy))
            + Part(Surface(a, b, c, d, x + 1.0, y), Weight(fx, 1.0 - fy))
            + Part(Surface(a, b, c, d, x, y + 1.0), Weight(1.0 - fx, fy))
            + Part(Surface(a, b, c, d, x + 1.0, y + 1.0), Weight(fx, fy))
         == Surface(a, b, c, d, x + fx, y + fy)
  {
    Factored(Surface(a, b, c, d, x, y), Surface(a, b, c, d, x + 1.0, y), fx, 1.0 - fy);
    Factored(Surface(a, b, c, d, x, y + 1.0), Surface(a, b, c, d, x + 1.0, y + 1.0), fx, fy);
    AlongX(a, b, c, d, x, y, fx);
    AlongX(a, b, c, d, x, y + 1.0, fx);
    AlongY(a, b, c, d, x + fx, y, fy);
    assert Mix(Surface(a, b, c, d, x + fx, y), Surface(a, b, c, d, x + fx, y + 1.0), fy)
        == Part(Surface(a, b, c, d, x + fx, y), 1.0 - fy) + Part(Surface(a, b, c, d, x + fx, y + 1.0), fy);
    hide Surface, Weight, Part, Mix;
  }

  // ----- One output sample -----

  /** The pixels that weigh on a position: those closer than one pixel to it in both directions. */
  predicate Close(px: real, py: real, x: nat, y: nat) {
    x as real - 1.0 < px < x as real + 1.0 && y as real - 1.0 < py < y as real + 1.0
  }

  /** The window is part of the raster. */
  predicate InRaster(w: nat, h: nat, roi: RoiCrop) {
    roi.win >= 1 && roi.x0 + roi.win <= w && roi.y0 + roi.win <= h
  }

  /** One at the pixel, nothing a pixel away. */
  function Nearness(p: real, x: nat): real {
    if p < x as real then 1.0 - (x as real - p) else 1.0 - (p - x as real)
  }

  /** Where a corner's tap looks: at the pixel it stands for, unless it carries no weight. */
  lemma CornerLooks(s: seq<Sample>, w: nat, h: nat, roi: RoiCrop, ox: nat, oy: nat, px: real, py: real, k: nat)
    requires InRaster(w, h, roi) && ox < roi.outN && oy < roi.outN && k < 4
    requires px == Position(roi.x0, ox, roi.outN, roi.win) && py == Position(roi.y0, oy, roi.outN, roi.win)
    ensures px.Floor >= 0 && py.Floor >= 0
    ensures var t, x: nat, y: nat := Taps(s, w, h, roi, ox, oy)[k], px.Floor + k % 2, py.Floor + k / 2;
      if Close(px, py, x, y) then t == Tap(Sampled(s, w, x, y), Weight(Nearness(px, x), Nearness(py, y)))
      else t.weight == 0.0
  {
    hide Position, Sampled;
    AxisWeight(roi.x0, ox, roi.outN, roi.win);
    AxisWeight(roi.y0, oy, roi.outN, roi.win);
    var p := Footprint(w, h, roi, ox, oy)[k];
    var x: nat, y: nat := px.Floor + k % 2, py.Floor + k / 2;
    if Close(px, py, x, y) {
      assert p.x == x && p.y == y;
    }
  }

  /** Where the pixels' heights lie on a bilinear surface, the sample is the surface's height at its position. As
      some such surface goes through any four heights, this settles every sample whose pixels are measured. */
  lemma SurfaceReproduced(
    s: seq<Sample>, w: nat, h: nat, roi: RoiCrop, ox: nat, oy: nat, px: real, py: real, a: real, b: real, c: real, d: real)
    requires InRaster(w, h, roi) && ox < roi.outN && oy < roi.outN
    requires FallsAt(px, roi.x0, ox, roi.outN, roi.win) && FallsAt(py, roi.y0, oy, roi.outN, roi.win)
    requires forall x: nat, y: nat :: Close(px, py, x, y) ==>
               Sampled(s, w, x, y) == Height(Surface(a, b, c, d, x as real, y as real))
    ensures Bilinear(s, w, h, roi, ox, oy) == Height(Surface(a, b, c, d, px, py))
  {
    hide Surface, Weight, Part, Position, Sampled;
    FallsAtPosition(px, roi.x0, ox, roi.outN, roi.win);
    FallsAtPosition(py, roi.y0, oy, roi.outN, roi.win);
    AxisWeight(roi.x0, ox, roi.outN, roi.win);
    AxisWeight(roi.y0, oy, roi.outN, roi.win);
    var taps := Taps(s, w, h, roi, ox, oy);
    var x, y := px.Floor, py.Floor;
    var fx, fy := px - x as real, py - y as real;
    forall k | 0 <= k < 4
      ensures Share(taps[k]) == (Part(Surface(a, b, c, d, (x + k % 2) as real, (y + k / 2) as real), taps[k].weight), taps[k].weight)
    {
      CornerShare(s, w, h, roi, ox, oy, px, py, a, b, c, d, k);
    }
    FourShares(taps);
    FourCorners(a, b, c, d, x as real, y as real, fx, fy);
    WeightsSumToOne(fx, fy);
    hide Share, Taps;
    var sum := Blend(taps, 4);
    assert sum.1 == 1.0;
    assert sum.0 / 1.0 == sum.0;
  }

  lemma CornerShare(
    s: seq<Sample>, w: nat, h: nat, roi: RoiCrop, ox: nat, oy: nat, px: real, py: real, a: real, b: real, c: real, d: real,
    k: nat)
    requires InRaster(w, h, roi) && ox < roi.outN && oy < roi.outN && k < 4
    requires px == Position(roi.x0, ox, roi.outN, roi.win) && py == Position(roi.y0, oy, roi.outN, roi.win)
    requires forall x: nat, y: nat :: Close(px, py, x, y) ==>
               Sampled(s, w, x, y) == Height(Surface(a, b, c, d, x as real, y as real))
    ensures var t := Taps(s, w, h, roi, ox, oy)[k];
      Share(t) == (Part(Surface(a, b, c, d, (px.Floor + k % 2) as real, (py.Floor + k / 2) as real), t.weight), t.weight)
  {
    CornerLooks(s, w, h, roi, ox, oy, px, py, k);
    hide Surface, Position, Sampled, Taps, Weight;
    var t, x: nat, y: nat := Taps(s, w, h, roi, ox, oy)[k], px.Floor + k % 2, py.Floor + k / 2;
    if !Close(px, py, x, y) {
      NoShare(t);
      assert Part(Surface(a, b, c, d, x as real, y as real), 0.0) == 0.0;
    }
  }

  lemma NoShare(t: Tap)
    requires t.weight == 0.0
    ensures Share(t) == (0.0, 0.0)
  {
  }

  // ----- Voids -----

  /** The same samples, with every void close to the position replaced by the height `m`. */
  ghost predicate VoidsHold(s: seq<Sample>, t: seq<Sample>, w: nat, px: real, py: real, m: real) {
    forall x: nat, y: nat :: Close(px, py, x, y) ==>
      Sampled(t, w, x, y) == if Sampled(s, w, x, y).Void? then Height(m) else Sampled(s, w, x, y)
  }

  /** Voids are left out, not taken for heights: they count as if they held the result itself. With
      `SurfaceReproduced` this settles every sample that has a height. */
  lemma VoidsHoldTheResult(
    s: seq<Sample>, t: seq<Sample>, w: nat, h: nat, roi: RoiCrop, ox: nat, oy: nat, px: real, py: real, m: real)
    requires InRaster(w, h, roi) && ox < roi.outN && oy < roi.outN
    requires FallsAt(px, roi.x0, ox, roi.outN, roi.win) && FallsAt(py, roi.y0, oy, roi.outN, roi.win)
    requires Bilinear(s, w, h, roi, ox, oy) == Height(m) && VoidsHold(s, t, w, px, py, m)
    ensures Bilinear(t, w, h, roi, ox, oy) == Height(m)
  {
    hide Weight, Part, Position, Sampled, VoidsHold;
    FallsAtPosition(px, roi.x0, ox, roi.outN, roi.win);
    FallsAtPosition(py, roi.y0, oy, roi.outN, roi.win);
    var before, after := Taps(s, w, h, roi, ox, oy), Taps(t, w, h, roi, ox, oy);
    forall k | 0 <= k < 4
      ensures Share(after[k]).1 == before[k].weight
      ensures Share(after[k]).0 == Share(before[k]).0 + Part(m, before[k].weight - Share(before[k]).1)
    {
      CornerHolds(s, t, w, h, roi, ox, oy, px, py, m, k);
    }
    WeightsSumToOne(px - px.Floor as real, py - py.Floor as real);
    assert before[0].weight + before[1].weight + before[2].weight + before[3].weight == 1.0;
    hide Taps, Footprint;
    HeldBlend(before, after, m);
  }

  /** Four taps that weigh one together, and the same with the weight of the voids put on their mean. */
  lemma HeldBlend(before: seq<Tap>, after: seq<Tap>, m: real)
    requires |before| == |after| == 4 && Blended(before) == Height(m)
    requires before[0].weight + before[1].weight + before[2].weight + before[3].weight == 1.0
    requires forall k :: 0 <= k < 4 ==> Share(after[k]).1 == before[k].weight
    requires forall k :: 0 <= k < 4 ==>
               Share(after[k]).0 == Share(before[k]).0 + Part(m, before[k].weight - Share(before[k]).1)
    ensures Blended(after) == Height(m)
  {
    FourShares(before);
    FourShares(after);
    FourParts(m, before[0].weight - Share(before[0]).1, before[1].weight - Share(before[1]).1,
              before[2].weight - Share(before[2]).1, before[3].weight - Share(before[3]).1);
    hide Share, Blend, Part;
    var sum, all := Blend(before, 4), Blend(after, 4);
    assert all.1 == 1.0;
    assert all.0 == sum.0 + Part(m, 1.0 - sum.1);
    QuotientIsHeld(sum.0, sum.1, m);
    assert all.0 / 1.0 == all.0;
  }

  lemma FourParts(m: real, a: real, b: real, c: real, d: real)
    ensures Part(m, a) + Part(m, b) + Part(m, c) + Part(m, d) == Part(m, a + b + c + d)
  {
  }

  lemma QuotientIsHeld(sum: real, weight: real, m: real)
    requires weight > 0.0 && m == sum / weight
    ensures sum + Part(m, 1.0 - weight) == m
  {
    assert m * weight == sum;
    assert m * (1.0 - weight) == m - m * weight;
  }

  lemma CornerHolds(
    s: seq<Sample>, t: seq<Sample>, w: nat, h: nat, roi: RoiCrop, ox: nat, oy: nat, px: real, py: real, m: real, k: nat)
    requires InRaster(w, h, roi) && ox < roi.outN && oy < roi.outN && k < 4
    requires px == Position(roi.x0, ox, roi.outN, roi.win) && py == Position(roi.y0, oy, roi.outN, roi.win)
    requires VoidsHold(s, t, w, px, py, m)
    ensures var before, after := Taps(s, w, h, roi, ox, oy)[k], Taps(t, w, h, roi, ox, oy)[k];
      && Share(after).1 == before.weight
      && Share(after).0 == Share(before).0 + Part(m, before.weight - Share(before).1)
  {
    CornerLooks(s, w, h, roi, ox, oy, px, py, k);
    CornerLooks(t, w, h, roi, ox, oy, px, py, k);
    var before, after := Taps(s, w, h, roi, ox, oy)[k], Taps(t, w, h, roi, ox, oy)[k];
    assert before.weight == after.weight;
    hide Position, Sampled, Taps, Weight;
    if before.weight == 0.0 {
      assert Share(before).0 == 0.0 == Share(after).0 && Part(m, 0.0) == 0.0;
    } else {
      assert Part(m, 0.0) == 0.0;
    }
  }

  /** What a pixel adds to the weight of a position. */
  function Seen(s: seq<Sample>, w: nat, px: real, py: real, x: nat, y: nat): real {
    if Close(px, py, x, y) && Sampled(s, w, x, y).Height? then Weight(Nearness(px, x), Nearness(py, y)) else 0.0
  }

  /** A sample is void exactly when the measured pixels close to it weigh no more than a millionth of a millionth
      together; in particular when none of them is measured. */
  lemma SampleIsVoidIff(s: seq<Sample>, w: nat, h: nat, roi: RoiCrop, ox: nat, oy: nat, px: real, py: real)
    requires InRaster(w, h, roi) && ox < roi.outN && oy < roi.outN
    requires FallsAt(px, roi.x0, ox, roi.outN, roi.win) && FallsAt(py, roi.y0, oy, roi.outN, roi.win)
    ensures px.Floor >= 0 && py.Floor >= 0
    ensures var x: nat, y: nat := px.Floor, py.Floor;
      Bilinear(s, w, h, roi, ox, oy).Void? <==>
        Seen(s, w, px, py, x, y) + Seen(s, w, px, py, x + 1, y) + Seen(s, w, px, py, x, y + 1)
        + Seen(s, w, px, py, x + 1, y + 1) <= 0.000_000_000_001
  {
    hide Weight, Position, Sampled;
    FallsAtPosition(px, roi.x0, ox, roi.outN, roi.win);
    FallsAtPosition(py, roi.y0, oy, roi.outN, roi.win);
    AxisWeight(roi.x0, ox, roi.outN, roi.win);
    AxisWeight(roi.y0, oy, roi.outN, roi.win);
    var taps := Taps(s, w, h, roi, ox, oy);
    forall k | 0 <= k < 4 ensures Share(taps[k]).1 == Seen(s, w, px, py, px.Floor + k % 2, py.Floor + k / 2) {
      CornerLooks(s, w, h, roi, ox, oy, px, py, k);
    }
    FourShares(taps);
    hide Share, Seen, Taps, Blend;
  }
}
