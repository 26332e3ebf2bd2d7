/**
 * src/generator/utils.py: near-square factoring of a sample count, the unit-step
 * font-size search, the whiteboard size and the placement of a glyph in its cell.
 */
module Utils {
  import opened Wrappers
  import opened Raster

  function Abs(x: int): int { if x < 0 then -x else x }

  // ---------------------------------------------------------------------------
  // get_near_dim_2d
  // ---------------------------------------------------------------------------

  function Area(p: Pair): int { p.x * p.y }

  /**
   * The shape of the factoring walk (2,2) -> (3,2) -> (3,3) -> (4,3) -> ... whose
   * sides add up to `level`: the first side is the one incremented on a tie.
   */
  function WalkShape(level: int): (s: Pair)
    requires level >= 4
    ensures s.x + s.y == level && s.y >= 2 && (s.x == s.y || s.x == s.y + 1)
  {
    Pair((level + 1) / 2, level / 2)
  }

  lemma AreaAtLeastLevel(level: int)
    requires level >= 4
    ensures Area(WalkShape(level)) >= level
  {
    var s := WalkShape(level);
    assert s.x * s.y >= 2 * s.x by { MulLeftMono(s.x, 2, s.y); }
    assert s.x * s.y >= 2 * s.y by { MulLeftMono(s.y, 2, s.x); }
  }

  lemma MulLeftMono(a: int, b: int, c: int)
    requires a >= 0 && b <= c
    ensures a * b <= a * c
  {
    assert a * c - a * b == a * (c - b);
  }

  /** Each step of the walk grows the area. */
  lemma AreaGrows(level: int)
    requires level >= 4
    ensures Area(WalkShape(level)) < Area(WalkShape(level + 1))
  {
    var s, t := WalkShape(level), WalkShape(level + 1);
    if s.x == s.y {
      assert t == Pair(s.x + 1, s.y);
      assert Area(t) == Area(s) + s.y;
    } else {
      assert t == Pair(s.x, s.y + 1);
      assert Area(t) == Area(s) + s.x;
    }
  }

  lemma {:induction false} AreaMonotone(i: int, j: int)
    requires 4 <= i <= j
    ensures Area(WalkShape(i)) <= Area(WalkShape(j))
    decreases j - i
  {
    if i < j {
      AreaGrows(i);
      AreaMonotone(i + 1, j);
    }
  }

  /** The first level at or after `level` whose walk shape covers `n` cells. */
  function CoveringLevel(n: int, level: int): (l: int)
    requires level >= 4
    ensures l >= level && Area(WalkShape(l)) >= n
    ensures forall j :: level <= j < l ==> Area(WalkShape(j)) < n
    decreases n - level
  {
    AreaAtLeastLevel(level);
    if Area(WalkShape(level)) >= n then level else CoveringLevel(n, level + 1)
  }

  /** A level that covers `n` while every earlier one does not is the covering level. */
  lemma CoveringLevelUnique(n: int, l: int)
    requires l >= 4 && Area(WalkShape(l)) >= n
    requires l == 4 || Area(WalkShape(l - 1)) < n
    ensures CoveringLevel(n, 4) == l
  {
    var c := CoveringLevel(n, 4);
    if c < l {
      AreaMonotone(c, l - 1);
    }
  }

  /**
   * `get_near_dim_2d(n, mode)`: `(n, 1)` for `n <= 2`; otherwise the first walk
   * shape that covers `n`, sorted descending when `wide` and ascending otherwise.
   */
  function NearDim2d(n: int, wide: bool): (r: Pair)
  {
    if n <= 2 then Pair(n, 1)
    else
      var s := WalkShape(CoveringLevel(n, 4));
      if wide then s else Pair(s.y, s.x)
  }

  /** The shape covers `n`, its sides differ by at most one, and its predecessor in the walk does not cover `n`. */
  lemma NearDimCovers(n: int, wide: bool)
    requires n > 2
    ensures var r := NearDim2d(n, wide);
      && r.x * r.y >= n
      && (if wide then r.x == r.y || r.x == r.y + 1 else r.y == r.x || r.y == r.x + 1)
      && (r == Pair(2, 2) || Area(WalkShape(r.x + r.y - 1)) < n)
  {
    var l := CoveringLevel(n, 4);
    var s := WalkShape(l);
    assert Area(Pair(s.y, s.x)) == Area(s);
    if l > 4 {
      assert Area(WalkShape(l - 1)) < n;
    }
  }

  lemma NearDimSmall(n: int, wide: bool)
    requires n <= 2
    ensures NearDim2d(n, wide) == Pair(n, 1)
  {
  }

  /** The case in the tests: 210 characters go on a 15 x 14 board. */
  lemma NearDim210()
    ensures NearDim2d(210, true) == Pair(15, 14)
    ensures NearDim2d(210, false) == Pair(14, 15)
  {
    assert WalkShape(29) == Pair(15, 14);
    assert WalkShape(28) == Pair(14, 14);
    CoveringLevelUnique(210, 29);
  }

  lemma MulMono(a: int, b: int, c: int, d: int)
    requires 0 <= a <= c && 0 <= b <= d
    ensures a * b <= c * d
  {
    MulLeftMono(a, b, d);
    MulLeftMono(d, a, c);
  }

  /** No shape of positive sides with a shorter longer side holds `n` cells: the factoring is as square as possible. */
  lemma NearDimMinimisesLongerSide(n: int, x: int, y: int)
    requires n > 2 && x >= 1 && y >= 1 && x * y >= n
    ensures Max(x, y) >= NearDim2d(n, true).x
  {
    var l := CoveringLevel(n, 4);
    var a := WalkShape(l).x;
    if Max(x, y) < a {
      assert l > 4 by {
        if l == 4 { assert a == 2; MulMono(x, y, 1, 1); }
      }
      var p := WalkShape(l - 1);
      assert Area(p) < n;
      assert p.x >= a - 1 && p.y >= a - 1;
      MulMono(x, y, a - 1, a - 1);
      MulMono(a - 1, a - 1, p.x, p.y);
    }
  }

  /** The list-based loop of `get_near_dim_2d`: `shape[argmin(shape)] += 1` until the product reaches `n`. */
  method GetNearDim2d(n: int, wide: bool) returns (r: Pair)
    ensures r == NearDim2d(n, wide)
  {
    if n <= 2 {
      return Pair(n, 1);
    }
    var shape := [2, 2];
    while shape[0] * shape[1] < n
      invariant |shape| == 2 && shape[0] + shape[1] >= 4
      invariant Pair(shape[0], shape[1]) == WalkShape(shape[0] + shape[1])
      invariant CoveringLevel(n, 4) == CoveringLevel(n, shape[0] + shape[1])
      decreases n - shape[0] * shape[1]
    {
      AreaGrows(shape[0] + shape[1]);
      var i := if shape[0] <= shape[1] then 0 else 1;
      shape := shape[i := shape[i] + 1];
    }
    r := if wide then Pair(shape[0], shape[1]) else Pair(shape[1], shape[0]);
  }

  // ---------------------------------------------------------------------------
  // estimate_font_size
  // ---------------------------------------------------------------------------

  /** How a size search ends. */
  datatype Estimate =
    | Fitted(size: int)          // the loop exited; the size of the last font object
    | Unopenable(size: int)      // ImageFont.truetype raised OSError at this size
    | Unsettled                  // the step budget ran out (the source would keep looping)

  /** What the size search measures: a text in the font file at `path` against a cell, with tolerance `eps`. */
  datatype SizeProbe = SizeProbe(renderer: Renderer, path: string, text: string, fit: Pair, eps: int)
  {
    /** `max(fit_size) - max(w, h)` for the text rendered at size `s`. */
    function Error(s: int): int {
      var m := renderer.textSize(path, s, text);
      Max(fit.x, fit.y) - Max(m.x, m.y)
    }

    predicate Fits(s: int) {
      Abs(Error(s)) <= eps
    }

    /** `font_size += 1 if _err > 0 else -1`. */
    function Step(err: int): int {
      if err > 0 then 1 else -1
    }

    /** The size the walk reaches after `k` steps from `s`. */
    function Visit(s: int, k: nat): int
      decreases k
    {
      if k == 0 then s else Visit(s + Step(Error(s)), k - 1)
    }

    /**
     * The loop from an instantiated size `s` onwards: measure at `s`, step, open
     * the font at the new size, and stop once the measurement at `s` fitted.
     */
    function Settle(s: int, fuel: nat): Estimate
      decreases fuel
    {
      if fuel == 0 then Unsettled
      else
        var e := Error(s);
        var next := s + Step(e);
        if !renderer.opens(path, next) then Unopenable(next)
        else if Abs(e) <= eps then Fitted(next)
        else Settle(next, fuel - 1)
    }

    /** Step `k` of the walk from `s` is the first that fits, and every size opened up to one step past it opens. */
    predicate FirstFitAt(s: int, k: nat) {
      && Fits(Visit(s, k))
      && (forall j :: 0 <= j < k ==> !Fits(Visit(s, j)))
      && (forall j :: 1 <= j <= k + 1 ==> renderer.opens(path, Visit(s, j)))
    }

    /** Whether the measured extent never shrinks and grows by at most one pixel per size step. */
    ghost predicate Gradual() {
      forall s :: Extent(s) <= Extent(s + 1) <= Extent(s) + 1
    }

    function Extent(s: int): int {
      var m := renderer.textSize(path, s, text);
      Max(m.x, m.y)
    }
  }

  /**
   * `estimate_font_size(font, text, fit_size, eps)`: the first error is measured
   * with `font` itself (at the size it was loaded at), the walk starts from its
   * `size` attribute; the loop then steps, re-instantiating the font, until a
   * measurement fits. The result is the size of the last font object.
   */
  function SizeSearch(p: SizeProbe, face: Face, fuel: nat): Estimate
    requires p.path == face.path
  {
    var e0 := p.Error(face.loadedAt);
    if Abs(e0) <= p.eps then Fitted(face.size)
    else
      var s1 := face.size + p.Step(e0);
      if !p.renderer.opens(p.path, s1) then Unopenable(s1) else p.Settle(s1, fuel)
  }

  /** If the loaded font already fits, its size attribute is returned unchanged. */
  lemma SizeSearchKeepsFittingFont(p: SizeProbe, face: Face, fuel: nat)
    requires p.path == face.path && p.Fits(face.loadedAt)
    ensures SizeSearch(p, face, fuel) == Fitted(face.size)
  {
  }

  /**
   * The walk returns one step past the first size that fits: `Fitted(r)` exactly
   * when some step `k` within the budget is the first fitting one and `r` is the
   * size after it.
   */
  lemma {:induction false} SettleIsFirstFitPlusStep(p: SizeProbe, s: int, fuel: nat, r: int)
    ensures p.Settle(s, fuel) == Fitted(r) <==>
      exists k :: 0 <= k < fuel && p.FirstFitAt(s, k) && r == p.Visit(s, k + 1)
    decreases fuel
  {
    if fuel > 0 {
      var next := s + p.Step(p.Error(s));
      assert forall j: nat :: p.Visit(s, j + 1) == p.Visit(next, j);
      if p.Settle(s, fuel) == Fitted(r) {
        if p.Fits(s) {
          assert p.FirstFitAt(s, 0);
        } else {
          SettleIsFirstFitPlusStep(p, next, fuel - 1, r);
          var k :| 0 <= k < fuel - 1 && p.FirstFitAt(next, k) && r == p.Visit(next, k + 1);
          assert p.FirstFitAt(s, k + 1) by {
            forall j | 0 <= j < k + 1 ensures !p.Fits(p.Visit(s, j)) {
              if j > 0 { assert p.Visit(s, j) == p.Visit(next, j - 1); }
            }
            forall j | 1 <= j <= k + 2 ensures p.renderer.opens(p.path, p.Visit(s, j)) {
              assert p.Visit(s, j) == p.Visit(next, j - 1);
              if j == 1 { assert p.Visit(next, 0) == next; }
            }
          }
        }
      }
      if exists k :: 0 <= k < fuel && p.FirstFitAt(s, k) && r == p.Visit(s, k + 1) {
        var k :| 0 <= k < fuel && p.FirstFitAt(s, k) && r == p.Visit(s, k + 1);
        assert p.renderer.opens(p.path, next) by { assert p.Visit(s, 1) == next; }
        if k > 0 {
          assert !p.Fits(s) by { assert p.Visit(s, 0) == s; }
          assert p.FirstFitAt(next, k - 1) by {
            forall j | 0 <= j < k - 1 ensures !p.Fits(p.Visit(next, j)) {
              assert p.Visit(s, j + 1) == p.Visit(next, j);
            }
            forall j | 1 <= j <= k ensures p.renderer.opens(p.path, p.Visit(next, j)) {
              assert p.Visit(s, j + 1) == p.Visit(next, j);
            }
            assert p.Visit(s, k) == p.Visit(next, k - 1);
          }
          SettleIsFirstFitPlusStep(p, next, fuel - 1, r);
        } else {
          assert p.Visit(s, 0) == s;
        }
      }
    }
  }

  /** With a gradual measure and a tolerance of at least one pixel, the size one step past the fit still fits. */
  lemma ReturnedSizeFitsWhenGradual(p: SizeProbe, s: int, fuel: nat, r: int)
    requires p.Gradual() && p.eps >= 1
    requires p.Settle(s, fuel) == Fitted(r)
    ensures p.Fits(r)
  {
    SettleIsFirstFitPlusStep(p, s, fuel, r);
    var k :| 0 <= k < fuel && p.FirstFitAt(s, k) && r == p.Visit(s, k + 1);
    var f := p.Visit(s, k);
    VisitStep(p, s, k);
    if p.Error(f) > 0 {
      assert p.Extent(f) <= p.Extent(f + 1) <= p.Extent(f) + 1;
    } else {
      assert p.Extent(f - 1) <= p.Extent(f) <= p.Extent(f - 1) + 1;
    }
  }

  lemma {:induction false} VisitStep(p: SizeProbe, s: int, k: nat)
    ensures p.Visit(s, k + 1) == p.Visit(s, k) + p.Step(p.Error(p.Visit(s, k)))
    decreases k
  {
    if k > 0 {
      VisitStep(p, s + p.Step(p.Error(s)), k - 1);
    }
  }

  /**
   * Convergence from below: when the text is too small at `s`, a size `t >= s`
   * fits, the measure is gradual and every size up to `t + 1` opens, a budget
   * larger than `t - s` ends in a fitted size.
   */
  lemma {:induction false} SettleConvergesUpward(p: SizeProbe, s: int, t: int, fuel: nat)
    requires p.Gradual() && p.eps >= 0
    requires p.Error(s) > p.eps && s <= t && p.Error(t) <= p.eps
    requires forall j :: s <= j <= t + 1 ==> p.renderer.opens(p.path, j)
    requires fuel > t - s
    ensures p.Settle(s, fuel).Fitted?
    decreases t - s
  {
    assert s < t;
    assert p.Extent(s) <= p.Extent(s + 1) <= p.Extent(s) + 1;
    assert p.renderer.opens(p.path, s + 1);
    if p.Error(s + 1) > p.eps {
      SettleConvergesUpward(p, s + 1, t, fuel - 1);
    } else {
      assert p.Fits(s + 1);
      assert p.renderer.opens(p.path, s + 1 + p.Step(p.Error(s + 1)));
    }
  }

  /**
   * Convergence from above: when the text is too large at `s`, a size `t <= s`
   * fits, the measure is gradual and every size from `t - 1` up opens, a budget
   * larger than `s - t` ends in a fitted size.
   */
  lemma {:induction false} SettleConvergesDownward(p: SizeProbe, s: int, t: int, fuel: nat)
    requires p.Gradual() && p.eps >= 0
    requires p.Error(s) < -p.eps && t <= s && p.Error(t) >= -p.eps
    requires forall j :: t - 1 <= j <= s ==> p.renderer.opens(p.path, j)
    requires fuel > s - t
    ensures p.Settle(s, fuel).Fitted?
    decreases s - t
  {
    assert t < s;
    assert p.Extent(s - 1) <= p.Extent(s) <= p.Extent(s - 1) + 1;
    assert p.renderer.opens(p.path, s - 1);
    if p.Error(s - 1) < -p.eps {
      SettleConvergesDownward(p, s - 1, t, fuel - 1);
    } else {
      assert p.Fits(s - 1);
      assert p.renderer.opens(p.path, s - 1 + p.Step(p.Error(s - 1)));
    }
  }

  /**
   * The loop of `estimate_font_size`, with a step budget: `fuel` bounds the
   * iterations after the first one.
   */
  method EstimateFontSize(p: SizeProbe, face: Face, fuel: nat) returns (est: Estimate)
    requires p.path == face.path
    ensures est == SizeSearch(p, face, fuel)
  {
    var fontSize := face.size;
    var err := p.Error(face.loadedAt);
    var at := face.loadedAt;
    var iterated := false;
    var budget: nat := fuel + 1;
    while Abs(err) > p.eps
      invariant !iterated ==> fontSize == face.size && at == face.loadedAt && err == p.Error(face.loadedAt) && budget == fuel + 1
      invariant iterated ==> at == fontSize && budget <= fuel
      invariant iterated && Abs(err) > p.eps ==> p.Settle(fontSize, budget) == SizeSearch(p, face, fuel)
      invariant iterated && Abs(err) <= p.eps ==> SizeSearch(p, face, fuel) == Fitted(fontSize)
      decreases budget
    {
      if budget == 0 {
        return Unsettled;
      }
      budget := budget - 1;
      err := p.Error(at);
      fontSize := fontSize + p.Step(err);
      if !p.renderer.opens(p.path, fontSize) {
        return Unopenable(fontSize);
      }
      at := fontSize;
      iterated := true;
    }
    return Fitted(fontSize);
  }

  // ---------------------------------------------------------------------------
  // create_whiteboard
  // ---------------------------------------------------------------------------

  /**
   * The size of the board `create_whiteboard` creates: None when neither
   * `shape` nor `n_samples` is given, an explicit `shape` verbatim, otherwise
   * `n_samples` cells of `sample` size.
   */
  function CreateWhiteboard(shape: Option<Pair>, nSamples: Option<Pair>, sample: Pair): (board: Option<Pair>)
    ensures board.None? <==> shape.None? && nSamples.None?
    ensures shape.Some? ==> board == shape
    ensures shape.None? && nSamples.Some? ==>
      board == Some(Pair(nSamples.value.x * sample.x, nSamples.value.y * sample.y))
  {
    if shape.None? && nSamples.None? then None
    else if shape.None? then Some(Pair(nSamples.value.x * sample.x, nSamples.value.y * sample.y))
    else shape
  }

  // ---------------------------------------------------------------------------
  // get_text_loc_in_sample
  // ---------------------------------------------------------------------------

  /** The bound `r` of the `randint(-r, r)` jitter: a tenth of the smaller side of the cell. */
  function JitterBound(sample: Pair): int {
    Min(sample.x, sample.y) / 10
  }

  predicate WithinJitter(j: Pair, bound: int) {
    -bound <= j.x <= bound && -bound <= j.y <= bound
  }

  /** The font offset used for centring: `getoffset`, perturbed by the jitter when there is one. */
  function InkOffset(r: Renderer, text: string, face: Face, jitter: Option<Pair>): Pair {
    var o := r.GetOffset(face, text);
    match jitter
    case None => o
    case Some(j) => Pair(o.x + j.x, o.y + j.y)
  }

  /**
   * `get_text_loc_in_sample`: per axis `floor((sample - size - offset) / 2)`,
   * unclamped. `jitter` is None for `offset != 'random'` and otherwise holds the
   * two `randint(-r, r)` draws.
   */
  function TextLocInSample(r: Renderer, text: string, face: Face, sample: Pair, jitter: Option<Pair>): (loc: Pair)
    requires jitter.Some? ==> WithinJitter(jitter.value, JitterBound(sample))
    ensures var size, off := r.GetSize(face, text), InkOffset(r, text, face, jitter);
      // the ink box [loc + off, loc + size) leaves equal margins, the odd pixel on the far side
      && 0 <= (sample.x - (loc.x + size.x)) - (loc.x + off.x) <= 1
      && 0 <= (sample.y - (loc.y + size.y)) - (loc.y + off.y) <= 1
  {
    var size, off := r.GetSize(face, text), InkOffset(r, text, face, jitter);
    Pair((sample.x - size.x - off.x) / 2, (sample.y - size.y - off.y) / 2)
  }

  /** No clamping: the location is negative exactly on an axis where text and offset overflow the cell. */
  lemma TextLocUnclamped(r: Renderer, text: string, face: Face, sample: Pair, jitter: Option<Pair>)
    requires jitter.Some? ==> WithinJitter(jitter.value, JitterBound(sample))
    ensures var loc, size, off := TextLocInSample(r, text, face, sample, jitter), r.GetSize(face, text), InkOffset(r, text, face, jitter);
      && (loc.x < 0 <==> size.x + off.x > sample.x)
      && (loc.y < 0 <==> size.y + off.y > sample.y)
  {
  }

  /** Without jitter the location depends only on the cell, the text's size and its offset. */
  lemma TextLocDeterministic(r: Renderer, text: string, face: Face, sample: Pair)
    ensures var loc, size, off := TextLocInSample(r, text, face, sample, None), r.GetSize(face, text), r.GetOffset(face, text);
      && 2 * loc.x <= sample.x - size.x - off.x <= 2 * loc.x + 1
      && 2 * loc.y <= sample.y - size.y - off.y <= 2 * loc.y + 1
  {
  }

  /** A jitter of `j` moves the location by about `-j / 2`, never further than the bound allows. */
  lemma JitterMovesLocation(r: Renderer, text: string, face: Face, sample: Pair, j: Pair)
    requires WithinJitter(j, JitterBound(sample))
    ensures var a, b := TextLocInSample(r, text, face, sample, None), TextLocInSample(r, text, face, sample, Some(j));
      && -1 <= 2 * (a.x - b.x) - j.x <= 1
      && -1 <= 2 * (a.y - b.y) - j.y <= 1
  {
  }
}
