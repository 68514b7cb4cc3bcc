/** `fill_dem_voids`: the voids of a square raster are filled from the rim inward, one ring per pass. */
module VoidFill {
  import opened Arithmetic
  import opened Wrappers

  /** A raster sample: a height in metres, or no measurement. */
  datatype Sample = Void | Height(metres: real)

  datatype FillError = Unfilled(left: nat)

  const MAX_PASSES: nat := 64

  // ----- The grid -----

  predicate InGrid(n: nat, x: int, y: int) {
    0 <= x < n && 0 <= y < n
  }

  function Index(n: nat, x: int, y: int): (i: nat)
    requires InGrid(n, x, y)
    ensures i < n * n && i % n == x && i / n == y
  {
    CellIndex(n, x, y);
    y * n + x
  }

  lemma CellIndex(n: nat, x: int, y: int)
    requires InGrid(n, x, y)
    ensures 0 <= y * n + x < n * n
    ensures (y * n + x) % n == x && (y * n + x) / n == y
  {
    IntProductMonotone(0, y, n);
    IntProductMonotone(y, n - 1, n);
    QuotientUnique(n, y * n + x, y, x);
  }

  lemma CellOf(n: nat, i: nat)
    requires i < n * n
    ensures n > 0 && InGrid(n, i % n, i / n) && Index(n, i % n, i / n) == i
  {
    assert i == (i / n) * n + i % n;
    if n <= i / n {
      IntProductMonotone(n, i / n, n);
    }
  }

  /** The sample at a cell; outside the grid there is none. */
  function At(s: seq<Sample>, n: nat, x: int, y: int): Sample
    requires |s| == n * n
  {
    if InGrid(n, x, y) then s[Index(n, x, y)] else Void
  }

  // ----- One pass -----

  function DX(k: nat): int { k % 3 - 1 }
  function DY(k: nat): int { k / 3 - 1 }

  /** Sum and number of the heights among the first `k` of the nine cells around (x, y), row by row,
      without the centre. */
  function Gather(s: seq<Sample>, n: nat, x: int, y: int, k: nat): (r: (real, nat))
    requires |s| == n * n && k <= 9
  {
    if k == 0 then (0.0, 0)
    else
      var before := Gather(s, n, x, y, k - 1);
      if DX(k - 1) == 0 && DY(k - 1) == 0 then before
      else Plus(before, At(s, n, x + DX(k - 1), y + DY(k - 1)))
  }

  function Plus(sum: (real, nat), sample: Sample): (real, nat) {
    match sample
    case Void => sum
    case Height(h) => (sum.0 + h, sum.1 + 1)
  }

  function NeighbourMean(s: seq<Sample>, n: nat, x: int, y: int): Sample
    requires |s| == n * n
  {
    var g := Gather(s, n, x, y, 9);
    if g.1 > 0 then Height(g.0 / g.1 as real) else Void
  }

  function FilledCell(s: seq<Sample>, n: nat, i: nat): Sample
    requires |s| == n * n && i < n * n
  {
    if s[i].Void? then (CellOf(n, i); NeighbourMean(s, n, i % n, i / n)) else s[i]
  }

  /** Every void that has a neighbour with a height becomes the mean of those, all at once. */
  function Pass(s: seq<Sample>, n: nat): (r: seq<Sample>)
    requires |s| == n * n
    ensures |r| == n * n
    ensures forall i :: 0 <= i < n * n ==> r[i] == FilledCell(s, n, i)
  {
    seq(n * n, i requires 0 <= i < n * n => FilledCell(s, n, i))
  }

  function Passes(s: seq<Sample>, n: nat, k: nat): (r: seq<Sample>)
    requires |s| == n * n
    ensures |r| == n * n
  {
    if k == 0 then s else Pass(Passes(s, n, k - 1), n)
  }

  function CountVoids(s: seq<Sample>): nat {
    if s == [] then 0 else CountVoids(s[..|s| - 1]) + if s[|s| - 1].Void? then 1 else 0
  }

  // ----- How far a pass reaches -----

  /** A measured cell lies within Chebyshev distance `k` of (x, y). */
  ghost predicate Near(s: seq<Sample>, n: nat, x: int, y: int, k: nat)
    requires |s| == n * n
  {
    exists mx, my :: MeasuredWithin(s, n, x, y, k, mx, my)
  }

  ghost predicate MeasuredWithin(s: seq<Sample>, n: nat, x: int, y: int, k: nat, mx: int, my: int)
    requires |s| == n * n
  {
    At(s, n, mx, my).Height? && x - k <= mx <= x + k && y - k <= my <= y + k
  }

  lemma {:induction false} GatherFinds(s: seq<Sample>, n: nat, x: int, y: int, k: nat)
    requires |s| == n * n && k <= 9
    ensures Gather(s, n, x, y, k).1 > 0 <==>
      exists j :: 0 <= j < k && (DX(j) != 0 || DY(j) != 0) && At(s, n, x + DX(j), y + DY(j)).Height?
  {
    hide At, Index;
    if k > 0 {
      GatherFinds(s, n, x, y, k - 1);
    }
  }

  lemma PassAt(s: seq<Sample>, n: nat, x: int, y: int)
    requires |s| == n * n && InGrid(n, x, y)
    ensures At(Pass(s, n), n, x, y) == if At(s, n, x, y).Void? then NeighbourMean(s, n, x, y) else At(s, n, x, y)
  {
    assert Pass(s, n)[Index(n, x, y)] == FilledCell(s, n, Index(n, x, y));
  }

  /** A void cell gets a height in a pass exactly when a cell beside it has one. */
  lemma PassFillsIff(s: seq<Sample>, n: nat, x: int, y: int)
    requires |s| == n * n && InGrid(n, x, y) && At(s, n, x, y).Void?
    ensures At(Pass(s, n), n, x, y).Height? <==> Near(s, n, x, y, 1)
  {
    hide At, Index, Pass, Gather;
    PassAt(s, n, x, y);
    GatherFinds(s, n, x, y, 9);
    if Gather(s, n, x, y, 9).1 > 0 {
      var j :| 0 <= j < 9 && (DX(j) != 0 || DY(j) != 0) && At(s, n, x + DX(j), y + DY(j)).Height?;
      assert MeasuredWithin(s, n, x, y, 1, x + DX(j), y + DY(j));
    }
    if Near(s, n, x, y, 1) {
      var mx, my :| MeasuredWithin(s, n, x, y, 1, mx, my);
      var j := (my - y + 1) * 3 + (mx - x + 1);
      assert 0 <= j < 9 && DX(j) == mx - x && DY(j) == my - y;
    }
  }

  lemma NearSpreads(s: seq<Sample>, n: nat, x: int, y: int, k: nat, cx: int, cy: int)
    requires |s| == n * n && Near(s, n, cx, cy, k) && x - 1 <= cx <= x + 1 && y - 1 <= cy <= y + 1
    ensures Near(s, n, x, y, k + 1)
  {
    var mx, my :| MeasuredWithin(s, n, cx, cy, k, mx, my);
    assert MeasuredWithin(s, n, x, y, k + 1, mx, my);
  }

  function Toward(from: int, to: int): int {
    if from < to then from + 1 else if from > to then from - 1 else from
  }

  /** One step towards the measurement stays in the grid and comes one closer. */
  lemma NearStep(s: seq<Sample>, n: nat, x: int, y: int, k: nat) returns (cx: int, cy: int)
    requires |s| == n * n && InGrid(n, x, y) && Near(s, n, x, y, k + 1)
    ensures InGrid(n, cx, cy) && Near(s, n, cx, cy, k) && x - 1 <= cx <= x + 1 && y - 1 <= cy <= y + 1
  {
    var mx, my :| MeasuredWithin(s, n, x, y, k + 1, mx, my);
    cx, cy := Toward(x, mx), Toward(y, my);
    assert MeasuredWithin(s, n, cx, cy, k, mx, my);
  }

  /** After `k` passes exactly the cells within distance `k` of a measurement hold a height. */
  lemma {:induction false} FilledIffNear(s: seq<Sample>, n: nat, k: nat, x: int, y: int)
    requires |s| == n * n && InGrid(n, x, y)
    ensures At(Passes(s, n, k), n, x, y).Height? <==> Near(s, n, x, y, k)
    decreases k
  {
    if k == 0 {
      assert At(s, n, x, y).Height? ==> MeasuredWithin(s, n, x, y, 0, x, y);
    } else {
      FilledIffNear(s, n, k - 1, x, y);
      if At(Passes(s, n, k), n, x, y).Height? {
        FilledIsNear(s, n, k, x, y);
      }
      if Near(s, n, x, y, k) {
        NearIsFilled(s, n, k, x, y);
      }
    }
  }

  lemma {:induction false} FilledIsNear(s: seq<Sample>, n: nat, k: nat, x: int, y: int)
    requires |s| == n * n && InGrid(n, x, y) && k > 0
    requires At(Passes(s, n, k), n, x, y).Height?
    ensures Near(s, n, x, y, k)
    decreases k, 0
  {
    hide At, Index, Pass, Near;
    var before := Passes(s, n, k - 1);
    PassAt(before, n, x, y);
    if At(before, n, x, y).Height? {
      FilledIffNear(s, n, k - 1, x, y);
      NearSpreads(s, n, x, y, k - 1, x, y);
    } else {
      PassFillsIff(before, n, x, y);
      var cx, cy := BesideFilled(before, n, x, y);
      FilledIffNear(s, n, k - 1, cx, cy);
      NearSpreads(s, n, x, y, k - 1, cx, cy);
    }
  }

  lemma BesideFilled(s: seq<Sample>, n: nat, x: int, y: int) returns (cx: int, cy: int)
    requires |s| == n * n && Near(s, n, x, y, 1)
    ensures InGrid(n, cx, cy) && At(s, n, cx, cy).Height? && x - 1 <= cx <= x + 1 && y - 1 <= cy <= y + 1
  {
    cx, cy :| MeasuredWithin(s, n, x, y, 1, cx, cy);
  }

  lemma {:induction false} NearIsFilled(s: seq<Sample>, n: nat, k: nat, x: int, y: int)
    requires |s| == n * n && InGrid(n, x, y) && k > 0 && Near(s, n, x, y, k)
    ensures At(Passes(s, n, k), n, x, y).Height?
    decreases k, 0
  {
    hide At, Index, Pass;
    var before := Passes(s, n, k - 1);
    PassAt(before, n, x, y);
    if At(before, n, x, y).Void? {
      var cx, cy := NearStep(s, n, x, y, k - 1);
      FilledIffNear(s, n, k - 1, cx, cy);
      assert MeasuredWithin(before, n, x, y, 1, cx, cy);
      PassFillsIff(before, n, x, y);
    }
  }

  /** Cells that hold a height keep it: measurements never change, nor do filled cells. */
  lemma {:induction false} HeightsStay(s: seq<Sample>, n: nat, j: nat, k: nat, i: nat)
    requires |s| == n * n && i < n * n && j <= k && Passes(s, n, j)[i].Height?
    ensures Passes(s, n, k)[i] == Passes(s, n, j)[i]
  {
    if j < k {
      HeightsStay(s, n, j, k - 1, i);
    }
  }

  /** Pass `k` fills exactly the ring at distance `k`. */
  lemma PassFillsRing(s: seq<Sample>, n: nat, k: nat, x: int, y: int)
    requires |s| == n * n && InGrid(n, x, y)
    ensures At(Passes(s, n, k), n, x, y).Void? && At(Passes(s, n, k + 1), n, x, y).Height? <==>
      Near(s, n, x, y, k + 1) && !Near(s, n, x, y, k)
  {
    FilledIffNear(s, n, k, x, y);
    FilledIffNear(s, n, k + 1, x, y);
  }

  // ----- What the filled heights are -----

  ghost predicate Bounded(s: seq<Sample>, lo: real, hi: real) {
    forall i :: 0 <= i < |s| && s[i].Height? ==> lo <= s[i].metres <= hi
  }

  ghost predicate SumBounded(sum: (real, nat), lo: real, hi: real) {
    lo * sum.1 as real <= sum.0 <= hi * sum.1 as real
  }

  lemma PlusBounded(sum: (real, nat), sample: Sample, lo: real, hi: real)
    requires SumBounded(sum, lo, hi) && (sample.Height? ==> lo <= sample.metres <= hi)
    ensures SumBounded(Plus(sum, sample), lo, hi)
  {
    var count := sum.1 as real;
    assert (sum.1 + 1) as real == count + 1.0;
    assert lo * (count + 1.0) == lo * count + lo && hi * (count + 1.0) == hi * count + hi;
  }

  lemma {:induction false} GatherBounded(s: seq<Sample>, n: nat, x: int, y: int, k: nat, lo: real, hi: real)
    requires |s| == n * n && k <= 9 && Bounded(s, lo, hi)
    ensures SumBounded(Gather(s, n, x, y, k), lo, hi)
  {
    if k > 0 {
      hide At, Index, Bounded, DX, DY, Plus, SumBounded;
      GatherBounded(s, n, x, y, k - 1, lo, hi);
      AtBounded(s, n, x + DX(k - 1), y + DY(k - 1), lo, hi);
      PlusBounded(Gather(s, n, x, y, k - 1), At(s, n, x + DX(k - 1), y + DY(k - 1)), lo, hi);
    }
  }

  lemma AtBounded(s: seq<Sample>, n: nat, x: int, y: int, lo: real, hi: real)
    requires |s| == n * n && Bounded(s, lo, hi)
    ensures At(s, n, x, y).Height? ==> lo <= At(s, n, x, y).metres <= hi
  {
  }

  lemma FilledCellBounded(s: seq<Sample>, n: nat, i: nat, lo: real, hi: real)
    requires |s| == n * n && i < n * n && Bounded(s, lo, hi)
    ensures FilledCell(s, n, i).Height? ==> lo <= FilledCell(s, n, i).metres <= hi
  {
    if s[i].Void? {
      CellOf(n, i);
      var g := Gather(s, n, i % n, i / n, 9);
      GatherBounded(s, n, i % n, i / n, 9, lo, hi);
      if g.1 > 0 {
        MeanBounded(g.0, g.1 as real, lo, hi);
      }
    }
  }

  /** No filled height leaves the range of the heights there were. */
  lemma {:induction false} PassesBounded(s: seq<Sample>, n: nat, k: nat, lo: real, hi: real)
    requires |s| == n * n && Bounded(s, lo, hi)
    ensures Bounded(Passes(s, n, k), lo, hi)
  {
    hide FilledCell;
    if k > 0 {
      var before := Passes(s, n, k - 1);
      PassesBounded(s, n, k - 1, lo, hi);
      forall i | 0 <= i < n * n && Pass(before, n)[i].Height?
        ensures lo <= Pass(before, n)[i].metres <= hi
      {
        FilledCellBounded(before, n, i, lo, hi);
      }
    }
  }

  // ----- The mean, over the set of cells -----

  /** The measured cells of the three-by-three block around (x, y). */
  ghost function MeasuredBlock(s: seq<Sample>, n: nat, x: int, y: int): set<(int, int)>
    requires |s| == n * n
  {
    set mx, my | x - 1 <= mx <= x + 1 && y - 1 <= my <= y + 1 && At(s, n, mx, my).Height? :: (mx, my)
  }

  ghost predicate AllMeasured(s: seq<Sample>, n: nat, cells: set<(int, int)>)
    requires |s| == n * n
  {
    forall c :: c in cells ==> At(s, n, c.0, c.1).Height?
  }

  ghost function TotalHeight(s: seq<Sample>, n: nat, cells: set<(int, int)>): real
    requires |s| == n * n && AllMeasured(s, n, cells)
  {
    if cells == {} then 0.0
    else
      var c :| c in cells;
      At(s, n, c.0, c.1).metres + TotalHeight(s, n, cells - {c})
  }

  /** The order in which the heights are added does not matter. */
  lemma {:induction false} TotalHeightTakesAny(s: seq<Sample>, n: nat, cells: set<(int, int)>, c: (int, int))
    requires |s| == n * n && AllMeasured(s, n, cells) && c in cells
    ensures TotalHeight(s, n, cells) == At(s, n, c.0, c.1).metres + TotalHeight(s, n, cells - {c})
    decreases |cells|
  {
    hide At;
    var d :| d in cells && TotalHeight(s, n, cells) == At(s, n, d.0, d.1).metres + TotalHeight(s, n, cells - {d});
    if d != c {
      TotalHeightTakesAny(s, n, cells - {d}, c);
      TotalHeightTakesAny(s, n, cells - {c}, d);
      assert cells - {c} - {d} == cells - {d} - {c};
    }
  }

  /** The measured cells among the first `k` of the eight around (x, y). */
  ghost function MeasuredFirst(s: seq<Sample>, n: nat, x: int, y: int, k: nat): set<(int, int)>
    requires |s| == n * n
  {
    set j | 0 <= j < k && (DX(j) != 0 || DY(j) != 0) && At(s, n, x + DX(j), y + DY(j)).Height? :: (x + DX(j), y + DY(j))
  }

  lemma {:induction false} GatherIsTotal(s: seq<Sample>, n: nat, x: int, y: int, k: nat)
    requires |s| == n * n && k <= 9
    ensures AllMeasured(s, n, MeasuredFirst(s, n, x, y, k))
    ensures Gather(s, n, x, y, k) ==
      (TotalHeight(s, n, MeasuredFirst(s, n, x, y, k)), |MeasuredFirst(s, n, x, y, k)|)
  {
    hide At, Index, TotalHeight, MeasuredFirst, DX, DY;
    MeasuredAreMeasured(s, n, x, y, k);
    if k == 0 {
      NothingMeasured(s, n, x, y);
    } else {
      GatherIsTotal(s, n, x, y, k - 1);
      OneMoreMeasured(s, n, x, y, k);
      var c := (x + DX(k - 1), y + DY(k - 1));
      var before, after := MeasuredFirst(s, n, x, y, k - 1), MeasuredFirst(s, n, x, y, k);
      if after != before {
        assert after - {c} == before;
        TotalHeightTakesAny(s, n, after, c);
      }
    }
  }

  lemma MeasuredAreMeasured(s: seq<Sample>, n: nat, x: int, y: int, k: nat)
    requires |s| == n * n
    ensures AllMeasured(s, n, MeasuredFirst(s, n, x, y, k))
  {
    hide At;
  }

  lemma NothingMeasured(s: seq<Sample>, n: nat, x: int, y: int)
    requires |s| == n * n
    ensures MeasuredFirst(s, n, x, y, 0) == {} && TotalHeight(s, n, {}) == 0.0
  {
  }

  lemma OneMoreMeasured(s: seq<Sample>, n: nat, x: int, y: int, k: nat)
    requires |s| == n * n && 0 < k <= 9
    ensures var c, before := (x + DX(k - 1), y + DY(k - 1)), MeasuredFirst(s, n, x, y, k - 1);
      && c !in before
      && MeasuredFirst(s, n, x, y, k) ==
           if (DX(k - 1) != 0 || DY(k - 1) != 0) && At(s, n, c.0, c.1).Height? then before + {c} else before
  {
    hide At;
    var c, after := (x + DX(k - 1), y + DY(k - 1)), MeasuredFirst(s, n, x, y, k);
    forall j | 0 <= j < k - 1 ensures DX(j) != DX(k - 1) || DY(j) != DY(k - 1) {
      assert j == 3 * (DY(j) + 1) + DX(j) + 1;
    }
    assert (DX(k - 1) != 0 || DY(k - 1) != 0) && At(s, n, c.0, c.1).Height? ==> c in after;
  }

  /** A void that is filled in a pass gets the mean of the measured cells around it: its height, times their
      number, is their total. */
  lemma FilledIsTheMean(s: seq<Sample>, n: nat, x: int, y: int)
    requires |s| == n * n && InGrid(n, x, y) && At(s, n, x, y).Void?
    ensures AllMeasured(s, n, MeasuredBlock(s, n, x, y))
    ensures var block := MeasuredBlock(s, n, x, y);
      match At(Pass(s, n), n, x, y)
      case Void => block == {}
      case Height(h) => block != {} && h * |block| as real == TotalHeight(s, n, block)
  {
    hide At, Index, Pass, Gather, MeasuredBlock, MeasuredFirst, TotalHeight;
    PassAt(s, n, x, y);
    GatherIsTotal(s, n, x, y, 9);
    BlockIsTheNine(s, n, x, y);
    var block := MeasuredBlock(s, n, x, y);
    if block != {} {
      QuotientTimes(TotalHeight(s, n, block), |block| as real);
    }
  }

  lemma BlockIsTheNine(s: seq<Sample>, n: nat, x: int, y: int)
    requires |s| == n * n && At(s, n, x, y).Void?
    ensures MeasuredBlock(s, n, x, y) == MeasuredFirst(s, n, x, y, 9)
  {
    hide At;
    forall c | c in MeasuredBlock(s, n, x, y) ensures c in MeasuredFirst(s, n, x, y, 9) {
      var j := (c.1 - y + 1) * 3 + (c.0 - x + 1);
      assert 0 <= j < 9 && DX(j) == c.0 - x && DY(j) == c.1 - y;
      assert c == (x + DX(j), y + DY(j));
    }
  }

  lemma QuotientTimes(a: real, b: real)
    requires b != 0.0
    ensures a / b * b == a
  {
  }

  // ----- Counting voids -----

  lemma {:induction false} CountVoidsUpdate(s: seq<Sample>, i: nat, x: Sample)
    requires i < |s| && s[i].Void? && x.Height?
    ensures CountVoids(s[i := x]) + 1 == CountVoids(s)
  {
    var last := |s| - 1;
    if i < last {
      assert s[i := x][..last] == s[..last][i := x];
      CountVoidsUpdate(s[..last], i, x);
    } else {
      assert s[i := x][..last] == s[..last];
    }
  }

  lemma {:induction false} NoVoidsIff(s: seq<Sample>)
    ensures CountVoids(s) == 0 <==> forall i :: 0 <= i < |s| ==> s[i].Height?
  {
    if s != [] {
      NoVoidsIff(s[..|s| - 1]);
    }
  }

  /** Passes after one that changes nothing change nothing. */
  lemma {:induction false} PassesSettle(s: seq<Sample>, n: nat, k: nat, m: nat)
    requires |s| == n * n && k <= m && Pass(Passes(s, n, k), n) == Passes(s, n, k)
    ensures Passes(s, n, m) == Passes(s, n, k)
  {
    if k < m {
      PassesSettle(s, n, k, m - 1);
    }
  }

  /** Every cell lies within 64 cells of a measurement: the voids that may be filled. */
  ghost predicate Fillable(s: seq<Sample>, n: nat)
    requires |s| == n * n
  {
    forall x, y :: InGrid(n, x, y) ==> Near(s, n, x, y, 64)
  }

  lemma FullAfterIffFillable(s: seq<Sample>, n: nat)
    requires |s| == n * n
    ensures CountVoids(Passes(s, n, MAX_PASSES)) == 0 <==> Fillable(s, n)
  {
    hide Passes, Near;
    var out := Passes(s, n, MAX_PASSES);
    NoVoidsIff(out);
    forall x, y | InGrid(n, x, y) ensures out[Index(n, x, y)].Height? <==> Near(s, n, x, y, MAX_PASSES) {
      FilledIffNear(s, n, MAX_PASSES, x, y);
    }
    forall i | 0 <= i < n * n && Fillable(s, n) ensures out[i].Height? {
      CellOf(n, i);
      assert out[Index(n, i % n, i / n)].Height?;
    }
  }

  // ----- The filling as the source runs it, in place -----

  method NeighbourSum(snapshot: seq<Sample>, n: nat, x: int, y: int) returns (sum: real, count: nat)
    requires |snapshot| == n * n
    ensures (sum, count) == Gather(snapshot, n, x, y, 9)
  {
    hide At, Index;
    sum, count := 0.0, 0;
    for dy := -1 to 2
      invariant (sum, count) == Gather(snapshot, n, x, y, (dy + 1) * 3)
    {
      for dx := -1 to 2
        invariant (sum, count) == Gather(snapshot, n, x, y, (dy + 1) * 3 + (dx + 1))
      {
        ghost var k := (dy + 1) * 3 + (dx + 1);
        assert DX(k) == dx && DY(k) == dy;
        if dx != 0 || dy != 0 {
          match At(snapshot, n, x + dx, y + dy)
          case Void =>
          case Height(h) =>
            sum, count := sum + h, count + 1;
        }
      }
    }
  }

  /** The indices of the voids, in order. */
  ghost predicate AreHoles(holes: seq<nat>, v: seq<Sample>) {
    && (forall i: nat :: i in holes <==> i < |v| && v[i].Void?)
    && (forall a, b :: 0 <= a < b < |holes| ==> holes[a] < holes[b])
  }

  method Holes(v: seq<Sample>) returns (holes: seq<nat>)
    ensures AreHoles(holes, v)
  {
    holes := [];
    for i := 0 to |v|
      invariant forall h: nat :: h in holes <==> h < i && v[h].Void?
      invariant forall a, b :: 0 <= a < b < |holes| ==> holes[a] < holes[b]
    {
      assert forall a :: 0 <= a < |holes| ==> holes[a] in holes;
      if v[i].Void? {
        holes := holes + [i];
      }
    }
  }

  /** `v` after the first `done` holes of one pass over `snapshot`. */
  ghost predicate PartlyFilled(v: seq<Sample>, snapshot: seq<Sample>, n: nat, holes: seq<nat>, done: nat)
    requires |v| == |snapshot| == n * n && done <= |holes|
  {
    forall i :: 0 <= i < n * n ==> v[i] == if i in holes[..done] then FilledCell(snapshot, n, i) else snapshot[i]
  }

  lemma PartlyFilledStep(
    v: seq<Sample>, w: seq<Sample>, snapshot: seq<Sample>, n: nat, holes: seq<nat>, done: nat)
    requires |v| == |w| == |snapshot| == n * n && done < |holes|
    requires PartlyFilled(v, snapshot, n, holes, done)
    requires holes[done] < n * n && w == v[holes[done] := FilledCell(snapshot, n, holes[done])]
    ensures PartlyFilled(w, snapshot, n, holes, done + 1)
  {
    assert holes[..done + 1] == holes[..done] + [holes[done]];
  }

  method FillPass(v: array<Sample>, n: nat, holes: seq<nat>) returns (filled: nat)
    requires v.Length == n * n
    requires AreHoles(holes, v[..])
    modifies v
    ensures v[..] == Pass(old(v[..]), n)
    ensures filled + CountVoids(v[..]) == CountVoids(old(v[..]))
  {
    hide NeighbourMean, FilledCell, Gather, CountVoids, PartlyFilled;
    var snapshot := v[..];
    filled := 0;
    assert forall g :: 0 <= g < |holes| ==> holes[g] in holes;
    assert PartlyFilled(v[..], snapshot, n, holes, 0) by { NothingFilled(snapshot, n, holes); }
    for h := 0 to |holes|
      invariant PartlyFilled(v[..], snapshot, n, holes, h)
      invariant forall g :: h <= g < |holes| ==> holes[g] < n * n && v[holes[g]] == snapshot[holes[g]]
      invariant filled + CountVoids(v[..]) == CountVoids(snapshot)
    {
      var i := holes[h];
      assert i in holes;
      ghost var before := v[..];
      CellOf(n, i);
      var sum, count := NeighbourSum(snapshot, n, i % n, i / n);
      assert FilledCell(snapshot, n, i) == (if count > 0 then Height(sum / count as real) else Void) by {
        HoleMean(snapshot, n, i, sum, count);
      }
      if count > 0 {
        v[i] := Height(sum / count as real);
        filled := filled + 1;
        CountVoidsUpdate(before, i, v[i]);
      }
      assert v[..] == before[i := FilledCell(snapshot, n, i)];
      PartlyFilledStep(before, v[..], snapshot, n, holes, h);
    }
    AllFilled(v[..], snapshot, n, holes);
  }

  lemma NothingFilled(snapshot: seq<Sample>, n: nat, holes: seq<nat>)
    requires |snapshot| == n * n
    ensures PartlyFilled(snapshot, snapshot, n, holes, 0)
  {
  }

  lemma HoleMean(snapshot: seq<Sample>, n: nat, i: nat, sum: real, count: nat)
    requires |snapshot| == n * n && i < n * n && n > 0 && snapshot[i].Void?
    requires (sum, count) == Gather(snapshot, n, i % n, i / n, 9)
    ensures FilledCell(snapshot, n, i) == if count > 0 then Height(sum / count as real) else Void
  {
    hide Gather;
  }

  lemma AllFilled(v: seq<Sample>, snapshot: seq<Sample>, n: nat, holes: seq<nat>)
    requires |v| == |snapshot| == n * n && PartlyFilled(v, snapshot, n, holes, |holes|)
    requires AreHoles(holes, snapshot)
    ensures v == Pass(snapshot, n)
  {
    assert holes[..|holes|] == holes;
    forall i | 0 <= i < n * n ensures v[i] == Pass(snapshot, n)[i] {
      assert v[i] == if i in holes then FilledCell(snapshot, n, i) else snapshot[i];
    }
  }

  /** `fill_dem_voids`: succeeds exactly when every cell is near enough to a measurement; either way
      the raster ends as 64 passes leave it, and the count is the number of voids filled. */
  method FillDemVoids(v: array<Sample>, n: nat) returns (r: Result<nat, FillError>)
    requires v.Length == n * n
    modifies v
    ensures v[..] == Passes(old(v[..]), n, MAX_PASSES)
    ensures r.Ok? <==> Fillable(old(v[..]), n)
    ensures r.Ok? ==> r.value == CountVoids(old(v[..])) && forall i :: 0 <= i < v.Length ==> v[i].Height?
    ensures r.Err? ==> r.error.left == CountVoids(v[..]) > 0
  {
    hide Pass, Fillable, Near;
    ghost var start := v[..];
    var filled := 0;
    FullAfterIffFillable(start, n);
    for pass := 0 to MAX_PASSES
      invariant v[..] == Passes(start, n, pass)
      invariant filled + CountVoids(v[..]) == CountVoids(start)
    {
      var holes := Holes(v[..]);
      if holes == [] {
        NoHolesLeft(v[..], n, holes);
        PassesSettle(start, n, pass, MAX_PASSES);
        return Ok(filled);
      }
      ghost var before := v[..];
      var progress := FillPass(v, n, holes);
      filled := filled + progress;
      if progress == 0 {
        NoProgress(before, n);
        PassesSettle(start, n, pass, MAX_PASSES);
        break;
      }
    }
    var left := CountVoids(v[..]);
    NoVoidsIff(v[..]);
    r := if left > 0 then Err(Unfilled(left)) else Ok(filled);
  }

  lemma NoHolesLeft(v: seq<Sample>, n: nat, holes: seq<nat>)
    requires |v| == n * n && holes == []
    requires AreHoles(holes, v)
    ensures CountVoids(v) == 0 && Pass(v, n) == v
    ensures forall i :: 0 <= i < |v| ==> v[i].Height?
  {
    forall i | 0 <= i < |v| ensures v[i].Height? {
      assert i !in holes;
    }
    NoVoidsIff(v);
  }

  /** A pass that fills nothing changes nothing. */
  lemma NoProgress(v: seq<Sample>, n: nat)
    requires |v| == n * n && CountVoids(Pass(v, n)) == CountVoids(v)
    ensures Pass(v, n) == v
  {
    FewerVoids(v, Pass(v, n));
  }

  lemma {:induction false} FewerVoids(a: seq<Sample>, b: seq<Sample>)
    requires |a| == |b|
    requires forall i :: 0 <= i < |a| ==> b[i] == a[i] || a[i].Void?
    ensures CountVoids(b) <= CountVoids(a)
    ensures CountVoids(b) == CountVoids(a) ==> b == a
  {
    if a != [] {
      var last := |a| - 1;
      FewerVoids(a[..last], b[..last]);
      assert a == a[..last] + [a[last]] && b == b[..last] + [b[last]];
    }
  }
}
