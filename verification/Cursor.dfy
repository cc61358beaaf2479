/**
 The software mouse cursor of `src/driver_framework/drivers/ps2mouse.rs`: before the
 arrow is drawn the pixels under it are saved, and they are put back when it moves.
 */
module Cursor {
  import opened Common

  const W: nat := 12
  const H: nat := 16
  const WHITE: nat := 0xFFFF_FFFF

  /** The arrow bitmap, twelve bits a row, the leftmost pixel in the highest bit. */
  const BITMAP: seq<nat> :=
    [0x800, 0xC00, 0xE00, 0xF00, 0xF80, 0xFC0, 0xFE0, 0xFF0, 0xFE0, 0xFC0, 0xF80, 0xF00, 0xE00, 0xC00, 0x800, 0x000]

  /** Every row of it is a run of set pixels from the left edge, of this length. */
  const ARROW: seq<nat> := [1, 2, 3, 4, 5, 6, 7, 8, 7, 6, 5, 4, 3, 2, 1, 0]

  datatype Point = Point(x: nat, y: nat)

  type Image = map<Point, nat>

  // ---------------------------------------------------------------- pictures

  predicate InWindow(k: Point, at: Point) { at.x <= k.x < at.x + W && at.y <= k.y < at.y + H }

  predicate InArrow(k: Point, at: Point) { InWindow(k, at) && k.x - at.x < ARROW[k.y - at.y] }

  lemma BitmapRow(row: nat)
    requires row < H
    ensures ARROW[row] <= W && BITMAP[row] == Pow2(12) - Pow2(12 - ARROW[row])
  {
    assert Pow2(4) == 0x10 && Pow2(5) == 0x20 && Pow2(6) == 0x40 && Pow2(7) == 0x80 && Pow2(8) == 0x100;
    assert Pow2(9) == 0x200 && Pow2(10) == 0x400 && Pow2(11) == 0x800 && Pow2(12) == 0x1000;
  }

  /** The arrow is the bitmap's set bits. */
  lemma ArrowIsBitmap(at: Point, row: nat, col: nat)
    requires row < 16 && col < 12
    ensures InArrow(Point(at.x + col, at.y + row), at) <==> Bit(BITMAP[row], 11 - col)
  {
    BitmapRow(row);
    BitsOfRun(12 - ARROW[row], 12, 11 - col);
  }

  /** The image with the arrow drawn over it. */
  function Paint(image: Image, at: Point): Image {
    map k | k in image :: if InArrow(k, at) then WHITE else image[k]
  }

  /** Drawn pixel by pixel: white at the bitmap's set bits, untouched everywhere else. */
  lemma PaintIsBitmap(image: Image, at: Point, k: Point)
    requires k in image
    ensures
      var inside := at.x <= k.x < at.x + 12 && at.y <= k.y < at.y + 16;
      Paint(image, at)[k] == if inside && Bit(BITMAP[k.y - at.y], 11 - (k.x - at.x)) then 0xFFFF_FFFF else image[k]
  {
    if at.x <= k.x < at.x + 12 && at.y <= k.y < at.y + 16 {
      ArrowIsBitmap(at, k.y - at.y, k.x - at.x);
      assert k == Point(at.x + (k.x - at.x), at.y + (k.y - at.y));
    }
  }

  /** Position of a window pixel in the saved, row-major background. */
  function Slot(k: Point, at: Point): nat
    requires InWindow(k, at)
  {
    (k.y - at.y) * W + (k.x - at.x)
  }

  /** The pixels of the window, row by row. */
  ghost predicate IsWindow(image: Image, at: Point, pixels: seq<nat>) {
    && |pixels| == W * H
    && forall k :: InWindow(k, at) ==> k in image && Slot(k, at) < W * H && pixels[Slot(k, at)] == image[k]
  }

  /** The window's pixels put back. */
  function Restore(image: Image, at: Point, pixels: seq<nat>): Image
    requires |pixels| == W * H
  {
    map k | k in image :: if InWindow(k, at) then SlotBound(k, at); pixels[Slot(k, at)] else image[k]
  }

  lemma SlotBound(k: Point, at: Point)
    requires InWindow(k, at)
    ensures Slot(k, at) < W * H
  {
  }

  // ---------------------------------------------------------------- redrawing

  /** The framebuffer and `saved_bg`. */
  datatype Screen = Screen(image: Image, saved: Option<(Point, seq<nat>)>)

  /** The image a redraw at `at` starts from: restored, unless the cursor did not move. */
  function Uncovered(s: Screen, at: Point): Image
    requires s.saved.Some? ==> |s.saved.value.1| == W * H
  {
    if s.saved.Some? && s.saved.value.0 != at then Restore(s.image, s.saved.value.0, s.saved.value.1) else s.image
  }

  /** `redraw_cursor` at a clamped position. */
  ghost predicate Redrawn(s: Screen, at: Point, r: Screen)
    requires s.saved.Some? ==> |s.saved.value.1| == W * H
  {
    && r.saved.Some? && r.saved.value.0 == at
    && IsWindow(Uncovered(s, at), at, r.saved.value.1)
    && r.image == Paint(Uncovered(s, at), at)
  }

  /** What happens to the framebuffer: the cursor is redrawn, or other code writes a pixel. */
  datatype Action = Redraw(at: Point) | Plot(k: Point, colour: nat)

  /**
   What the screen is made of: the image under the cursor, the image shown, and where the
   cursor was drawn.
   */
  datatype Layers = Layers(base: Image, image: Image, at: Option<Point>)

  /** A write lands on the screen; it reaches the base only outside the cursor's window. */
  function Plotted(l: Layers, k: Point, colour: nat): Layers {
    if k !in l.image then l
    else if l.at.Some? && InWindow(k, l.at.value) then l.(image := l.image[k := colour])
    else l.(base := l.base[k := colour], image := l.image[k := colour])
  }

  /** Moving uncovers the base; a redraw in place takes what is shown, arrow and all, as the base. */
  function Moved(l: Layers, to: Point): Layers {
    var base := if l.at == Some(to) then l.image else l.base;
    Layers(base, Paint(base, to), Some(to))
  }

  function Act(l: Layers, a: Action): Layers {
    match a
    case Redraw(to) => Moved(l, to)
    case Plot(k, colour) => Plotted(l, k, colour)
  }

  function After(base: Image, acts: seq<Action>): Layers {
    if acts == [] then Layers(base, base, None) else Act(After(base, acts[..|acts| - 1]), acts[|acts| - 1])
  }

  /** Base and image agree wherever the cursor is not. */
  ghost predicate Layered(l: Layers) {
    && l.image.Keys == l.base.Keys
    && forall k :: k in l.base && (l.at.None? || !InWindow(k, l.at.value)) ==> l.image[k] == l.base[k]
  }

  /** The framebuffer is the image shown, and the saved background is the base's window. */
  ghost predicate Represents(s: Screen, l: Layers) {
    && s.image == l.image && Layered(l)
    && (l.at.None? ==> s.saved.None?)
    && (l.at.Some? ==> s.saved.Some? && s.saved.value.0 == l.at.value && IsWindow(l.base, l.at.value, s.saved.value.1))
  }

  /** The screen after a run, starting from `base` with nothing saved. */
  ghost predicate Reached(s: Screen, base: Image, acts: seq<Action>) {
    Represents(s, After(base, acts))
  }

  /** Taking the saved window back gives the base, whatever was drawn inside the window. */
  lemma RestoreUncovers(l: Layers, pixels: seq<nat>)
    requires Layered(l) && l.at.Some? && IsWindow(l.base, l.at.value, pixels)
    ensures Restore(l.image, l.at.value, pixels) == l.base
  {
  }

  lemma UncoveredIsBase(s: Screen, l: Layers, to: Point)
    requires Represents(s, l)
    ensures s.saved.Some? ==> |s.saved.value.1| == W * H
    ensures Uncovered(s, to) == Moved(l, to).base
  {
    if l.at.None? {
      assert l.image == l.base;
    } else if l.at != Some(to) {
      RestoreUncovers(l, s.saved.value.1);
    }
  }

  /** A redraw moves the layers, even to an overlapping window. */
  lemma RedrawShows(s: Screen, l: Layers, to: Point, r: Screen)
    requires Represents(s, l)
    requires (s.saved.Some? ==> |s.saved.value.1| == W * H) && Redrawn(s, to, r)
    ensures Represents(r, Moved(l, to))
  {
    UncoveredIsBase(s, l, to);
  }

  /** A foreign write keeps the saved background that of the base. */
  lemma PlotShows(s: Screen, l: Layers, k: Point, colour: nat)
    requires Represents(s, l) && k in s.image
    ensures Represents(s.(image := s.image[k := colour]), Plotted(l, k, colour))
  {
  }

  lemma AfterOneMore(base: Image, acts: seq<Action>, a: Action)
    ensures After(base, acts + [a]) == Act(After(base, acts), a)
  {
    assert (acts + [a])[..|acts|] == acts;
  }

  /** One more redraw of a run. */
  lemma RunShows(s: Screen, base: Image, acts: seq<Action>, at: Point, r: Screen)
    requires Reached(s, base, acts)
    requires (s.saved.Some? ==> |s.saved.value.1| == W * H) && Redrawn(s, at, r)
    ensures Reached(r, base, acts + [Redraw(at)])
  {
    RedrawShows(s, After(base, acts), at, r);
    AfterOneMore(base, acts, Redraw(at));
  }

  /** One more write by other code. */
  lemma RunPlots(s: Screen, base: Image, acts: seq<Action>, k: Point, colour: nat)
    requires Reached(s, base, acts) && k in s.image
    ensures Reached(s.(image := s.image[k := colour]), base, acts + [Plot(k, colour)])
  {
    PlotShows(s, After(base, acts), k, colour);
    AfterOneMore(base, acts, Plot(k, colour));
  }

  // ---------------------------------------------------------------- when the cursor leaves no trace

  /** The picture as it would be without a cursor. */
  function Canvas(base: Image, acts: seq<Action>): Image {
    if acts == [] then base
    else
      var before := Canvas(base, acts[..|acts| - 1]);
      Drawn(before, acts[|acts| - 1])
  }

  function Drawn(canvas: Image, a: Action): Image {
    if a.Plot? && a.k in canvas then canvas[a.k := a.colour] else canvas
  }

  /** Where the cursor was last drawn. */
  function Position(acts: seq<Action>): (at: Option<Point>) {
    if acts == [] then None
    else
      var a := acts[|acts| - 1];
      if a.Redraw? then Some(a.at) else Position(acts[..|acts| - 1])
  }

  /** The canvas lies under the cursor, and the screen shows it with one whole arrow. */
  ghost predicate Seamless(l: Layers, canvas: Image) {
    l.base == canvas && l.image == if l.at.None? then canvas else Paint(canvas, l.at.value)
  }

  ghost predicate ArrowInvisible(base: Image, at: Point) {
    forall k :: k in base && InArrow(k, at) ==> base[k] == WHITE
  }

  /**
   An action the cursor survives unnoticed: a redraw that moves it, or where it cannot be
   seen; a write outside its window, or one that changes nothing there.
   */
  ghost predicate Harmless(canvas: Image, at: Option<Point>, a: Action) {
    match a
    case Redraw(to) => at == Some(to) ==> ArrowInvisible(canvas, to)
    case Plot(k, colour) =>
      at.Some? && k in canvas && InWindow(k, at.value) ==> canvas[k] == colour && (InArrow(k, at.value) ==> colour == WHITE)
  }

  ghost predicate AllHarmless(base: Image, acts: seq<Action>) {
    forall i :: 0 <= i < |acts| ==> Harmless(Canvas(base, acts[..i]), Position(acts[..i]), acts[i])
  }

  lemma PaintTwice(image: Image, at: Point)
    ensures Paint(Paint(image, at), at) == Paint(image, at)
  {
  }

  lemma PaintChangesNothing(canvas: Image, at: Point)
    ensures Paint(canvas, at) == canvas <==> ArrowInvisible(canvas, at)
  {
    if Paint(canvas, at) == canvas {
      forall k | k in canvas && InArrow(k, at) ensures canvas[k] == WHITE {
        assert Paint(canvas, at)[k] == canvas[k];
      }
    }
  }

  lemma RedrawSeamless(l: Layers, canvas: Image, to: Point)
    requires Seamless(l, canvas)
    ensures Seamless(Moved(l, to), canvas) <==> Harmless(canvas, l.at, Redraw(to))
  {
    PaintChangesNothing(canvas, to);
    PaintTwice(canvas, to);
  }

  lemma PlotOutside(canvas: Image, at: Point, k: Point, colour: nat)
    requires k in canvas && !InWindow(k, at)
    ensures Paint(canvas, at)[k := colour] == Paint(canvas[k := colour], at)
  {
  }

  lemma PlotSeamless(l: Layers, canvas: Image, k: Point, colour: nat)
    requires Seamless(l, canvas)
    ensures Seamless(Plotted(l, k, colour), Drawn(canvas, Plot(k, colour))) <==> Harmless(canvas, l.at, Plot(k, colour))
  {
    if k in canvas && l.at.Some? {
      if InWindow(k, l.at.value) {
        PlotInside(canvas, l.at.value, k, colour);
      } else {
        PlotOutside(canvas, l.at.value, k, colour);
      }
    }
  }

  lemma PlotInside(canvas: Image, at: Point, k: Point, colour: nat)
    requires k in canvas && InWindow(k, at)
    ensures
      canvas == canvas[k := colour] && Paint(canvas, at)[k := colour] == Paint(canvas[k := colour], at) <==>
      canvas[k] == colour && (InArrow(k, at) ==> colour == WHITE)
  {
    if canvas == canvas[k := colour] {
      assert canvas[k := colour][k] == colour;
      if Paint(canvas, at)[k := colour] == Paint(canvas, at) {
        assert Paint(canvas, at)[k := colour][k] == colour;
      }
    }
  }

  lemma {:induction false} PositionIsShown(base: Image, acts: seq<Action>)
    ensures After(base, acts).at == Position(acts)
    decreases |acts|
  {
    if acts == [] {
    } else {
      PositionIsShown(base, acts[..|acts| - 1]);
    }
  }

  ghost predicate AlwaysSeamless(base: Image, acts: seq<Action>) {
    forall i :: 0 <= i <= |acts| ==> Seamless(After(base, acts[..i]), Canvas(base, acts[..i]))
  }

  lemma SeamlessStep(base: Image, acts: seq<Action>, i: nat)
    requires i < |acts| && Seamless(After(base, acts[..i]), Canvas(base, acts[..i]))
    ensures Seamless(After(base, acts[..i + 1]), Canvas(base, acts[..i + 1])) <==>
      Harmless(Canvas(base, acts[..i]), Position(acts[..i]), acts[i])
  {
    var front := acts[..i];
    assert acts[..i + 1][..i] == front && acts[..i + 1][i] == acts[i];
    PositionIsShown(base, front);
    match acts[i] {
      case Redraw(to) => RedrawSeamless(After(base, front), Canvas(base, front), to);
      case Plot(k, colour) => PlotSeamless(After(base, front), Canvas(base, front), k, colour);
    }
  }

  lemma {:induction false} HarmlessSoFar(base: Image, acts: seq<Action>, i: nat)
    requires AllHarmless(base, acts) && i <= |acts|
    ensures Seamless(After(base, acts[..i]), Canvas(base, acts[..i]))
  {
    if i == 0 {
      assert acts[..0] == [];
    } else {
      HarmlessSoFar(base, acts, i - 1);
      SeamlessStep(base, acts, i - 1);
    }
  }

  /**
   Whatever other code draws: at every moment of a run the picture is intact under one
   whole arrow exactly if every action is harmless when it happens.
   */
  lemma SeamlessExactly(base: Image, acts: seq<Action>)
    ensures AlwaysSeamless(base, acts) <==> AllHarmless(base, acts)
  {
    if AlwaysSeamless(base, acts) {
      forall i | 0 <= i < |acts| ensures Harmless(Canvas(base, acts[..i]), Position(acts[..i]), acts[i]) {
        SeamlessStep(base, acts, i);
      }
    }
    if AllHarmless(base, acts) {
      forall i | 0 <= i <= |acts| ensures Seamless(After(base, acts[..i]), Canvas(base, acts[..i])) {
        HarmlessSoFar(base, acts, i);
      }
    }
  }

  /** After a run of harmless actions the framebuffer is the picture drawn, with one arrow. */
  lemma RunIsSeamless(s: Screen, base: Image, acts: seq<Action>)
    requires Reached(s, base, acts) && AllHarmless(base, acts)
    ensures s.image == match Position(acts) { case None => Canvas(base, acts) case Some(at) => Paint(Canvas(base, acts), at) }
  {
    HarmlessSoFar(base, acts, |acts|);
    assert acts[..|acts|] == acts;
    PositionIsShown(base, acts);
  }

  /** What other code draws while the cursor is shown outlives the next move exactly if it is outside the window. */
  lemma TextSurvivesExactly(l: Layers, k: Point, colour: nat, to: Point)
    requires Layered(l) && l.at.Some? && to != l.at.value && k in l.base && l.base[k] != colour
    ensures Moved(Plotted(l, k, colour), to).base[k] == colour <==> !InWindow(k, l.at.value)
  {
  }

  lemma ThreeActions(base: Image, a: Action, b: Action, c: Action)
    ensures After(base, [a, b, c]) == Act(Act(Act(Layers(base, base, None), a), b), c)
    ensures Canvas(base, [a, b, c]) == Drawn(Drawn(Drawn(base, a), b), c)
  {
    assert [a, b, c][..2] == [a, b];
    assert [a, b][..1] == [a];
    assert [a][..0] == [];
    assert After(base, [a]) == Act(Layers(base, base, None), a) && Canvas(base, [a]) == Drawn(base, a);
    assert After(base, [a, b]) == Act(After(base, [a]), b) && Canvas(base, [a, b]) == Drawn(Canvas(base, [a]), b);
  }

  /** A pixel written beside the arrow, inside the window, is gone when the cursor moves on. */
  lemma TextIsLost()
    ensures
      var k := Point(11, 0);
      var black: Image := map x, y | 0 <= x < 24 && 0 <= y < 16 :: Point(x, y) := 0;
      var acts := [Redraw(Point(0, 0)), Plot(k, 5), Redraw(Point(12, 0))];
      && k in After(black, acts).image && After(black, acts).image[k] == 0
      && k in Canvas(black, acts) && Canvas(black, acts)[k] == 5
  {
    var k := Point(11, 0);
    var black: Image := map x, y | 0 <= x < 24 && 0 <= y < 16 :: Point(x, y) := 0;
    assert k in black && black[k] == 0;
    ThreeActions(black, Redraw(Point(0, 0)), Plot(k, 5), Redraw(Point(12, 0)));
  }

  // ---------------------------------------------------------------- redraws alone

  function Redraws(path: seq<Point>): seq<Action> {
    seq(|path|, i requires 0 <= i < |path| => Redraw(path[i]))
  }

  /** The base after redraws alone: an arrow sticks wherever a position is drawn twice in a row. */
  function Stained(base: Image, path: seq<Point>): Image {
    if |path| < 2 then base
    else
      var n := |path| - 1;
      var before := Stained(base, path[..n]);
      if path[n] == path[n - 1] then Paint(before, path[n]) else before
  }

  /** Along any path the screen shows one arrow over the stained base. */
  lemma {:induction false} PathShows(base: Image, path: seq<Point>)
    requires path != []
    ensures
      var at, stained := path[|path| - 1], Stained(base, path);
      After(base, Redraws(path)) == Layers(stained, Paint(stained, at), Some(at))
    decreases |path|
  {
    var n := |path| - 1;
    RedrawsOneMore(path[..n], path[n]);
    AfterOneMore(base, Redraws(path[..n]), Redraw(path[n]));
    assert path[..n] + [path[n]] == path;
    if n == 0 {
    } else {
      PathShows(base, path[..n]);
    }
  }

  lemma RedrawsOneMore(path: seq<Point>, at: Point)
    ensures Redraws(path + [at]) == Redraws(path) + [Redraw(at)]
  {
  }

  ghost predicate NoVisibleRepeat(base: Image, path: seq<Point>) {
    forall i :: 0 < i < |path| && path[i] == path[i - 1] ==> ArrowInvisible(base, path[i])
  }

  lemma {:induction false} StainedGrows(base: Image, path: seq<Point>)
    ensures Stained(base, path).Keys == base.Keys
    ensures forall k :: k in base ==> Stained(base, path)[k] == base[k] || Stained(base, path)[k] == WHITE
    decreases |path|
  {
    if |path| < 2 {
    } else {
      StainedGrows(base, path[..|path| - 1]);
    }
  }

  lemma RepeatsSplit(base: Image, path: seq<Point>)
    requires |path| >= 2
    ensures
      var n := |path| - 1;
      NoVisibleRepeat(base, path) <==>
        NoVisibleRepeat(base, path[..n]) && (path[n] == path[n - 1] ==> ArrowInvisible(base, path[n]))
  {
    var n := |path| - 1;
    if NoVisibleRepeat(base, path[..n]) && (path[n] == path[n - 1] ==> ArrowInvisible(base, path[n])) {
      forall i | 0 < i < |path| && path[i] == path[i - 1] ensures ArrowInvisible(base, path[i]) {
        if i < n { assert path[..n][i] == path[..n][i - 1]; }
      }
    }
  }

  /** Drawing over a picture that is the base or white gives the base only if it was the base and the arrow is invisible. */
  lemma PaintIsClean(base: Image, before: Image, at: Point)
    requires before.Keys == base.Keys && forall k :: k in base ==> before[k] == base[k] || before[k] == WHITE
    ensures Paint(before, at) == base <==> before == base && ArrowInvisible(base, at)
  {
    var after := Paint(before, at);
    if after == base {
      forall k | k in base ensures before[k] == base[k] && (InArrow(k, at) ==> base[k] == WHITE) {
        assert after[k] == base[k];
      }
    }
  }

  /**
   A run leaves the clean image, apart from the one arrow, exactly when no position is
   drawn twice in a row with the arrow visible there.
   */
  lemma {:induction false} CleanExactly(base: Image, path: seq<Point>)
    ensures Stained(base, path) == base <==> NoVisibleRepeat(base, path)
    decreases |path|
  {
    if |path| < 2 {
    } else {
      var n := |path| - 1;
      CleanExactly(base, path[..n]);
      RepeatsSplit(base, path);
      StainedGrows(base, path[..n]);
      PaintIsClean(base, Stained(base, path[..n]), path[n]);
    }
  }

  /** A path without a visible repeat ends with one arrow over the untouched image. */
  lemma RunIsClean(s: Screen, base: Image, path: seq<Point>)
    requires Reached(s, base, Redraws(path)) && path != [] && NoVisibleRepeat(base, path)
    ensures s.image == Paint(base, path[|path| - 1])
  {
    CleanExactly(base, path);
    PathShows(base, path);
  }

  /** After a redraw in place, the saved background holds the arrow itself. */
  lemma RepeatSavesTheArrow(s: Screen, base: Image, path: seq<Point>, k: Point)
    requires Reached(s, base, Redraws(path)) && |path| >= 2 && path[|path| - 1] == path[|path| - 2]
    requires InArrow(k, path[|path| - 1])
    ensures s.saved.Some? && |s.saved.value.1| == W * H
    ensures Slot(k, path[|path| - 1]) < W * H && s.saved.value.1[Slot(k, path[|path| - 1])] == WHITE
  {
    var at := path[|path| - 1];
    PathShows(base, path);
    assert InWindow(k, at) && k in Stained(base, path);
  }

  // ---------------------------------------------------------------- movement

  type I32 = x: int | -0x8000_0000 <= x <= 0x7FFF_FFFF

  const I32_MAX: I32 := 0x7FFF_FFFF
  const I32_MIN: I32 := -0x8000_0000

  /** `i32::saturating_add` */
  function SaturatingAdd(a: I32, b: int): I32 {
    if a + b > I32_MAX then I32_MAX else if a + b < I32_MIN then I32_MIN else a + b
  }

  /** The sum, or the bound on its side if it does not fit 32 bits. */
  lemma SaturatingAddIsSum(a: I32, b: int)
    ensures -0x8000_0000 <= a + b <= 0x7FFF_FFFF ==> SaturatingAdd(a, b) == a + b
    ensures a + b > 0x7FFF_FFFF ==> SaturatingAdd(a, b) == 0x7FFF_FFFF
    ensures a + b < -0x8000_0000 ==> SaturatingAdd(a, b) == -0x8000_0000
  {
  }

  function Limited(d: int): int { if d > 16 then 16 else if d < -16 then -16 else d }

  function Clamped(v: int, max: nat): nat { if v < 0 then 0 else if v > max then max else v }

  function Gap(a: int, b: int): nat { if a < b then b - a else a - b }

  /** The number of [-16, 16] nearest to `d`. */
  lemma LimitedIsNearest(d: int, w: int)
    requires -16 <= w <= 16
    ensures -16 <= Limited(d) <= 16 && Gap(d, Limited(d)) <= Gap(d, w)
  {
  }

  /** The number of [0, max] nearest to `v`. */
  lemma ClampedIsNearest(v: int, max: nat, w: nat)
    requires w <= max
    ensures Clamped(v, max) <= max && Gap(v, Clamped(v, max)) <= Gap(v, w)
  {
  }

  /** The clamped positions a stream of packets visits from cursor position (x, y). */
  function Route(x: I32, y: I32, maxX: nat, maxY: nat, packets: seq<(int, int)>): seq<Point>
    decreases |packets|
  {
    if packets == [] then []
    else
      var x1 := SaturatingAdd(x, Limited(packets[0].0));
      var y1 := SaturatingAdd(y, -Limited(packets[0].1));
      [Point(Clamped(x1, maxX), Clamped(y1, maxY))] + Route(x1, y1, maxX, maxY, packets[1..])
  }

  /** The sum of the horizontal and of the vertical movements. */
  function Across(packets: seq<(int, int)>): int {
    if packets == [] then 0 else packets[0].0 + Across(packets[1..])
  }

  function Up(packets: seq<(int, int)>): int {
    if packets == [] then 0 else packets[0].1 + Up(packets[1..])
  }

  /** Movements of at most 16 that keep the cursor on the screen. */
  ghost predicate Gentle(x: I32, y: I32, maxX: nat, maxY: nat, packets: seq<(int, int)>) {
    && (forall k :: 0 <= k < |packets| ==> -16 <= packets[k].0 <= 16 && -16 <= packets[k].1 <= 16)
    && (forall k :: 0 <= k <= |packets| ==> 0 <= x + Across(packets[..k]) <= maxX && 0 <= y - Up(packets[..k]) <= maxY)
  }

  lemma SumsStep(packets: seq<(int, int)>, k: nat)
    requires 0 < k <= |packets|
    ensures Across(packets[..k]) == packets[0].0 + Across(packets[1..][..k - 1])
    ensures Up(packets[..k]) == packets[0].1 + Up(packets[1..][..k - 1])
  {
    assert packets[..k][1..] == packets[1..][..k - 1];
  }

  /** On the screen and within the limit, the cursor is where the summed movements put it: right for x, up for y. */
  lemma {:induction false} RouteSums(x: I32, y: I32, maxX: nat, maxY: nat, packets: seq<(int, int)>, k: nat)
    requires maxX <= 0x7FFF_FFFF && maxY <= 0x7FFF_FFFF && Gentle(x, y, maxX, maxY, packets) && k < |packets|
    ensures |Route(x, y, maxX, maxY, packets)| == |packets|
    ensures Route(x, y, maxX, maxY, packets)[k].x == x + Across(packets[..k + 1])
    ensures Route(x, y, maxX, maxY, packets)[k].y == y - Up(packets[..k + 1])
    decreases |packets|
  {
    var tail := packets[1..];
    var x1, y1 := GentleStep(x, y, maxX, maxY, packets);
    assert [packets[0]] + tail == packets;
    RouteStep(x, y, maxX, maxY, packets[0], tail);
    SumsStep(packets, k + 1);
    if tail == [] {
    } else {
      RouteSums(x1, y1, maxX, maxY, tail, if k == 0 then 0 else k - 1);
    }
  }

  /** The first of such movements is neither limited, saturated nor clamped, and the rest are such movements. */
  lemma GentleStep(x: I32, y: I32, maxX: nat, maxY: nat, packets: seq<(int, int)>) returns (x1: I32, y1: I32)
    requires maxX <= 0x7FFF_FFFF && maxY <= 0x7FFF_FFFF && Gentle(x, y, maxX, maxY, packets) && packets != []
    ensures x1 == SaturatingAdd(x, Limited(packets[0].0)) == x + packets[0].0
    ensures y1 == SaturatingAdd(y, -Limited(packets[0].1)) == y - packets[0].1
    ensures Clamped(x1, maxX) == x1 && Clamped(y1, maxY) == y1
    ensures Gentle(x1, y1, maxX, maxY, packets[1..])
  {
    var tail := packets[1..];
    SumsStep(packets, 1);
    assert tail[..0] == [];
    assert 0 <= x + Across(packets[..1]) <= maxX && 0 <= y - Up(packets[..1]) <= maxY;
    x1, y1 := x + packets[0].0, y - packets[0].1;
    SaturatingAddIsSum(x, packets[0].0);
    SaturatingAddIsSum(y, -packets[0].1);
    forall j | 0 <= j <= |tail|
      ensures 0 <= x1 + Across(tail[..j]) <= maxX && 0 <= y1 - Up(tail[..j]) <= maxY
    {
      SumsStep(packets, j + 1);
      assert 0 <= x + Across(packets[..j + 1]) <= maxX && 0 <= y - Up(packets[..j + 1]) <= maxY;
    }
  }

  /** What the consumer and the rest of the kernel do, in order: a packet arrives, or other code writes a pixel. */
  datatype Happening = Packet(dx: int, dy: int) | Write(k: Point, colour: nat)

  function PacketsOf(hs: seq<Happening>): seq<(int, int)> {
    if hs == [] then [] else (if hs[0].Packet? then [(hs[0].dx, hs[0].dy)] else []) + PacketsOf(hs[1..])
  }

  function CursorX(x: I32, h: Happening): I32 { if h.Packet? then SaturatingAdd(x, Limited(h.dx)) else x }

  function CursorY(y: I32, h: Happening): I32 { if h.Packet? then SaturatingAdd(y, -Limited(h.dy)) else y }

  /** What a happening that leaves the cursor at (x, y) does to the framebuffer. */
  function ActionOf(h: Happening, x: I32, y: I32, maxX: nat, maxY: nat): Action {
    match h
    case Packet(_, _) => Redraw(Point(Clamped(x, maxX), Clamped(y, maxY)))
    case Write(k, colour) => Plot(k, colour)
  }

  /** What happens to the framebuffer after `acts`, from happening number `i` on. */
  function Actions(acts: seq<Action>, x: I32, y: I32, maxX: nat, maxY: nat, hs: seq<Happening>, i: nat): seq<Action>
    requires i <= |hs|
    decreases |hs| - i
  {
    if i == |hs| then acts
    else
      var x1, y1 := CursorX(x, hs[i]), CursorY(y, hs[i]);
      Actions(acts + [ActionOf(hs[i], x1, y1, maxX, maxY)], x1, y1, maxX, maxY, hs, i + 1)
  }

  /** The same run on the layers themselves. */
  function Performed(l: Layers, x: I32, y: I32, maxX: nat, maxY: nat, hs: seq<Happening>, i: nat): Layers
    requires i <= |hs|
    decreases |hs| - i
  {
    if i == |hs| then l
    else
      var x1, y1 := CursorX(x, hs[i]), CursorY(y, hs[i]);
      Performed(Act(l, ActionOf(hs[i], x1, y1, maxX, maxY)), x1, y1, maxX, maxY, hs, i + 1)
  }

  lemma {:induction false} PerformedIsAfter(base: Image, acts: seq<Action>, x: I32, y: I32, maxX: nat, maxY: nat,
                                            hs: seq<Happening>, i: nat)
    requires i <= |hs|
    ensures Performed(After(base, acts), x, y, maxX, maxY, hs, i) == After(base, Actions(acts, x, y, maxX, maxY, hs, i))
    decreases |hs| - i
  {
    if i == |hs| {
    } else {
      var x1, y1 := CursorX(x, hs[i]), CursorY(y, hs[i]);
      var a := ActionOf(hs[i], x1, y1, maxX, maxY);
      AfterOneMore(base, acts, a);
      PerformedIsAfter(base, acts + [a], x1, y1, maxX, maxY, hs, i + 1);
    }
  }

  /** The positions redrawn. */
  function Path(acts: seq<Action>): seq<Point> {
    if acts == [] then []
    else
      var a := acts[|acts| - 1];
      Path(acts[..|acts| - 1]) + if a.Redraw? then [a.at] else []
  }

  lemma PathOneMore(acts: seq<Action>, a: Action)
    ensures Path(acts + [a]) == Path(acts) + if a.Redraw? then [a.at] else []
  {
    assert (acts + [a])[..|acts|] == acts;
  }

  lemma PacketsStep(hs: seq<Happening>, i: nat)
    requires i < |hs|
    ensures PacketsOf(hs[i..]) == (if hs[i].Packet? then [(hs[i].dx, hs[i].dy)] else []) + PacketsOf(hs[i + 1..])
  {
    assert hs[i..][1..] == hs[i + 1..];
  }

  /** Whatever is drawn in between, the cursor visits exactly the route of the packets. */
  lemma {:induction false} PathIsRoute(acts: seq<Action>, x: I32, y: I32, maxX: nat, maxY: nat, hs: seq<Happening>, i: nat)
    requires i <= |hs|
    ensures Path(Actions(acts, x, y, maxX, maxY, hs, i)) == Path(acts) + Route(x, y, maxX, maxY, PacketsOf(hs[i..]))
    decreases |hs| - i
  {
    if i == |hs| {
    } else {
      var x1, y1 := CursorX(x, hs[i]), CursorY(y, hs[i]);
      var a := ActionOf(hs[i], x1, y1, maxX, maxY);
      var step := if a.Redraw? then [a.at] else [];
      PathOneMore(acts, a);
      PathIsRoute(acts + [a], x1, y1, maxX, maxY, hs, i + 1);
      HappeningStep(x, y, maxX, maxY, hs, i);
      Regroup(Path(acts), step, Route(x1, y1, maxX, maxY, PacketsOf(hs[i + 1..])));
    }
  }

  lemma Regroup(a: seq<Point>, b: seq<Point>, c: seq<Point>)
    ensures a + b + c == a + (b + c)
  {
  }

  /** A happening takes its position, if it has one, from the front of the route. */
  lemma HappeningStep(x: I32, y: I32, maxX: nat, maxY: nat, hs: seq<Happening>, i: nat)
    requires i < |hs|
    ensures
      var x1, y1 := CursorX(x, hs[i]), CursorY(y, hs[i]);
      var a := ActionOf(hs[i], x1, y1, maxX, maxY);
      Route(x, y, maxX, maxY, PacketsOf(hs[i..])) ==
        (if a.Redraw? then [a.at] else []) + Route(x1, y1, maxX, maxY, PacketsOf(hs[i + 1..]))
  {
    PacketsStep(hs, i);
    if hs[i].Packet? {
      RouteStep(x, y, maxX, maxY, (hs[i].dx, hs[i].dy), PacketsOf(hs[i + 1..]));
    } else {
      assert PacketsOf(hs[i..]) == PacketsOf(hs[i + 1..]);
    }
  }

  /** Packets alone cause redraws alone. */
  lemma {:induction false} PacketsRedraw(acts: seq<Action>, x: I32, y: I32, maxX: nat, maxY: nat, hs: seq<Happening>, i: nat)
    requires i <= |hs| && forall j :: 0 <= j < |hs| ==> hs[j].Packet?
    requires acts == Redraws(Path(acts))
    ensures
      var all := Actions(acts, x, y, maxX, maxY, hs, i);
      all == Redraws(Path(all))
    decreases |hs| - i
  {
    if i == |hs| {
    } else {
      var x1, y1 := CursorX(x, hs[i]), CursorY(y, hs[i]);
      var a := ActionOf(hs[i], x1, y1, maxX, maxY);
      PathOneMore(acts, a);
      RedrawsOneMore(Path(acts), a.at);
      PacketsRedraw(acts + [a], x1, y1, maxX, maxY, hs, i + 1);
    }
  }

  /** A session of packets alone redraws its first position and then their route. */
  lemma PacketsOnly(at: Point, x: I32, y: I32, maxX: nat, maxY: nat, hs: seq<Happening>)
    requires forall j :: 0 <= j < |hs| ==> hs[j].Packet?
    ensures Actions([Redraw(at)], x, y, maxX, maxY, hs, 0) == Redraws([at] + Route(x, y, maxX, maxY, PacketsOf(hs)))
  {
    var first := [Redraw(at)];
    assert hs[0..] == hs && [] + first == first;
    PathOneMore([], Redraw(at));
    assert Path(first) == [at] && first == Redraws([at]);
    PathIsRoute(first, x, y, maxX, maxY, hs, 0);
    PacketsRedraw(first, x, y, maxX, maxY, hs, 0);
  }

  /** A run that begins with one redraw, as actions; it visits that position and the packets' route. */
  lemma SessionRun(s: Screen, base: Image, at: Point, x: I32, y: I32, maxX: nat, maxY: nat, hs: seq<Happening>)
    returns (acts: seq<Action>)
    requires Represents(s, Performed(Moved(Layers(base, base, None), at), x, y, maxX, maxY, hs, 0))
    ensures acts == Actions([Redraw(at)], x, y, maxX, maxY, hs, 0) && Reached(s, base, acts)
    ensures Path(acts) == [at] + Route(x, y, maxX, maxY, PacketsOf(hs))
  {
    var first := [Redraw(at)];
    acts := Actions(first, x, y, maxX, maxY, hs, 0);
    assert hs[0..] == hs && [] + first == first;
    AfterOneMore(base, [], Redraw(at));
    PathOneMore([], Redraw(at));
    PerformedIsAfter(base, first, x, y, maxX, maxY, hs, 0);
    PathIsRoute(first, x, y, maxX, maxY, hs, 0);
  }

  lemma RouteStep(x: I32, y: I32, maxX: nat, maxY: nat, p: (int, int), rest: seq<(int, int)>)
    ensures
      var x1, y1 := SaturatingAdd(x, Limited(p.0)), SaturatingAdd(y, -Limited(p.1));
      Route(x, y, maxX, maxY, [p] + rest) ==
        [Point(Clamped(x1, maxX), Clamped(y1, maxY))] + Route(x1, y1, maxX, maxY, rest)
  {
    assert ([p] + rest)[0] == p && ([p] + rest)[1..] == rest;
  }

  // ---------------------------------------------------------------- the driver

  class CursorDriver {
    const fb: array2<nat>       // framebuffer pixels, row then column
    var cursorX: I32
    var cursorY: I32
    var saved: Option<(Point, seq<nat>)>

    ghost predicate Valid()
      reads this`saved
    {
      && W <= fb.Length1 <= I32_MAX && H <= fb.Length0 <= I32_MAX
      && (saved.Some? ==> |saved.value.1| == W * H && OnScreen(saved.value.0))
    }

    predicate OnScreen(at: Point) {
      at.x + W <= fb.Length1 && at.y + H <= fb.Length0
    }

    ghost function Picture(): Image
      reads fb
    {
      map x, y | 0 <= x < fb.Length1 && 0 <= y < fb.Length0 :: Point(x, y) := fb[y, x]
    }

    ghost function View(): Screen
      reads this`saved, fb
    {
      Screen(Picture(), saved)
    }

    /** `cx` and `cy`: the position clamped to the screen. */
    method Clamp() returns (at: Point)
      requires Valid()
      ensures OnScreen(at)
      ensures at == Point(Clamped(cursorX, fb.Length1 - W), Clamped(cursorY, fb.Length0 - H))
    {
      var maxX, maxY := fb.Length1 - W, fb.Length0 - H;
      var cx := cursorX;
      if cx < 0 { cx := 0; }
      if cx > maxX { cx := maxX; }
      var cy := cursorY;
      if cy < 0 { cy := 0; }
      if cy > maxY { cy := maxY; }
      at := Point(cx, cy);
    }

    /** Put the saved window back, row by row. */
    method RestoreWindow(at: Point, pixels: seq<nat>)
      requires OnScreen(at) && |pixels| == W * H
      modifies fb
      ensures Picture() == Restore(old(Picture()), at, pixels)
    {
      for ry := 0 to H
        invariant forall x, y :: 0 <= x < fb.Length1 && 0 <= y < fb.Length0 ==>
          fb[y, x] == if at.x <= x < at.x + W && at.y <= y < at.y + ry then pixels[(y - at.y) * W + (x - at.x)] else old(fb[y, x])
      {
        for rx := 0 to W
          invariant forall x, y :: 0 <= x < fb.Length1 && 0 <= y < fb.Length0 ==>
            fb[y, x] ==
              if at.x <= x < at.x + W && at.y <= y < at.y + ry then pixels[(y - at.y) * W + (x - at.x)]
              else if at.x <= x < at.x + rx && y == at.y + ry then pixels[(y - at.y) * W + (x - at.x)]
              else old(fb[y, x])
        {
          fb[at.y + ry, at.x + rx] := pixels[ry * W + rx];
        }
      }
    }

    /** Read the window, row by row, into a background of zeros. */
    method CaptureWindow(at: Point) returns (pixels: seq<nat>)
      requires OnScreen(at)
      ensures IsWindow(Picture(), at, pixels)
    {
      pixels := seq(W * H, _ => 0);
      for ry := 0 to H
        invariant |pixels| == W * H
        invariant forall x, y :: at.x <= x < at.x + W && at.y <= y < at.y + ry ==>
          pixels[(y - at.y) * W + (x - at.x)] == fb[y, x]
      {
        for rx := 0 to W
          invariant |pixels| == W * H
          invariant forall x, y :: at.x <= x < at.x + W && at.y <= y < at.y + ry ==>
            pixels[(y - at.y) * W + (x - at.x)] == fb[y, x]
          invariant forall x, y :: at.x <= x < at.x + rx && y == at.y + ry ==>
            pixels[(y - at.y) * W + (x - at.x)] == fb[y, x]
        {
          pixels := pixels[ry * W + rx := fb[at.y + ry, at.x + rx]];
        }
      }
      forall k | InWindow(k, at)
        ensures k in Picture() && Slot(k, at) < W * H && pixels[Slot(k, at)] == Picture()[k]
      {
        SlotBound(k, at);
        assert fb[k.y, k.x] == pixels[(k.y - at.y) * W + (k.x - at.x)];
      }
    }

    /** Draw the arrow pixels, row by row. */
    method DrawArrow(at: Point)
      requires OnScreen(at)
      modifies fb
      ensures Picture() == Paint(old(Picture()), at)
    {
      for row := 0 to H
        invariant forall x, y :: 0 <= x < fb.Length1 && 0 <= y < fb.Length0 ==>
          fb[y, x] == if at.y <= y < at.y + row && InArrow(Point(x, y), at) then WHITE else old(fb[y, x])
      {
        for col := 0 to W
          invariant forall x, y :: 0 <= x < fb.Length1 && 0 <= y < fb.Length0 ==>
            fb[y, x] ==
              if at.y <= y < at.y + row && InArrow(Point(x, y), at) then WHITE
              else if y == at.y + row && x < at.x + col && InArrow(Point(x, y), at) then WHITE
              else old(fb[y, x])
        {
          ArrowIsBitmap(at, row, col);
          if Bit(BITMAP[row], W - 1 - col) {
            fb[at.y + row, at.x + col] := WHITE;
          }
        }
      }
    }

    /** First step of a redraw: restore the previous background if the cursor moved. */
    method Uncover(at: Point)
      requires Valid()
      modifies this`saved, fb
      ensures Valid() && Picture() == Uncovered(old(View()), at)
    {
      if saved.Some? && saved.value.0 != at {
        RestoreWindow(saved.value.0, saved.value.1);
        saved := None;
      }
    }

    /** `redraw_cursor` */
    method RedrawCursor() returns (at: Point)
      requires Valid()
      modifies this`saved, fb
      ensures Valid() && OnScreen(at) && Redrawn(old(View()), at, View())
      ensures at == Point(Clamped(cursorX, fb.Length1 - W), Clamped(cursorY, fb.Length0 - H))
    {
      at := Clamp();
      Uncover(at);
      var pixels := CaptureWindow(at);
      saved := Some((at, pixels));
      DrawArrow(at);
    }

    /** One packet of `mouse_event_loop`: apply the clamped deltas, vertical axis flipped, and redraw. */
    method HandlePacket(dx: int, dy: int) returns (at: Point)
      requires Valid()
      modifies this`cursorX, this`cursorY, this`saved, fb
      ensures Valid() && Redrawn(old(View()), at, View())
      ensures -16 <= dx <= 16 && -0x8000_0000 <= old(cursorX) + dx <= 0x7FFF_FFFF ==> cursorX - old(cursorX) == dx
      ensures -16 <= dy <= 16 && -0x8000_0000 <= old(cursorY) - dy <= 0x7FFF_FFFF ==> old(cursorY) - cursorY == dy
      ensures if dx >= 0 then 0 <= cursorX - old(cursorX) <= 16 else -16 <= cursorX - old(cursorX) <= 0
      ensures if dy >= 0 then 0 <= old(cursorY) - cursorY <= 16 else -16 <= old(cursorY) - cursorY <= 0
      ensures at.x + 12 <= fb.Length1 && at.y + 16 <= fb.Length0
      ensures cursorX == SaturatingAdd(old(cursorX), Limited(dx)) && cursorY == SaturatingAdd(old(cursorY), -Limited(dy))
      ensures at == Point(Clamped(cursorX, fb.Length1 - W), Clamped(cursorY, fb.Length0 - H))
    {
      var mx, my := dx, dy;
      if mx > 16 { mx := 16; } else if mx < -16 { mx := -16; }
      if my > 16 { my := 16; } else if my < -16 { my := -16; }
      cursorX := SaturatingAdd(cursorX, mx);
      cursorY := SaturatingAdd(cursorY, -my);
      at := RedrawCursor();
    }

    /** One more packet. */
    method Follow(dx: int, dy: int, ghost l: Layers)
      requires Valid() && Represents(View(), l)
      modifies this`cursorX, this`cursorY, this`saved, fb
      ensures Valid()
      ensures cursorX == SaturatingAdd(old(cursorX), Limited(dx)) && cursorY == SaturatingAdd(old(cursorY), -Limited(dy))
      ensures Represents(View(), Moved(l, Point(Clamped(cursorX, fb.Length1 - W), Clamped(cursorY, fb.Length0 - H))))
    {
      ghost var before := View();
      var at := HandlePacket(dx, dy);
      RedrawShows(before, l, at, View());
    }

    /** `draw_pixel_at` by other code, on the screen. */
    method WritePixel(k: Point, colour: nat, ghost l: Layers)
      requires Valid() && Represents(View(), l) && k.x < fb.Length1 && k.y < fb.Length0
      modifies fb
      ensures Valid() && Represents(View(), Plotted(l, k, colour))
    {
      ghost var before := View();
      fb[k.y, k.x] := colour;
      assert View() == before.(image := before.image[k := colour]);
      PlotShows(before, l, k, colour);
    }

    /** `set_cursor_pos`: the boot code draws the cursor this way before any packet arrives. */
    method SetCursorPos(x: I32, y: I32, ghost l: Layers)
      requires Valid() && Represents(View(), l)
      modifies this`cursorX, this`cursorY, this`saved, fb
      ensures Valid() && cursorX == x && cursorY == y
      ensures Represents(View(), Moved(l, Point(Clamped(x, fb.Length1 - W), Clamped(y, fb.Length0 - H))))
    {
      ghost var before := View();
      cursorX, cursorY := x, y;
      var at := RedrawCursor();
      RedrawShows(before, l, at, View());
    }

    ghost predicate OnScreenWrite(h: Happening) {
      h.Write? ==> h.k.x < fb.Length1 && h.k.y < fb.Length0
    }

    /** A packet, or a write by other code. */
    method Happen(h: Happening, ghost l: Layers)
      requires Valid() && Represents(View(), l) && OnScreenWrite(h)
      modifies this`cursorX, this`cursorY, this`saved, fb
      ensures Valid() && cursorX == CursorX(old(cursorX), h) && cursorY == CursorY(old(cursorY), h)
      ensures Represents(View(), Act(l, ActionOf(h, cursorX, cursorY, fb.Length1 - W, fb.Length0 - H)))
    {
      match h {
        case Packet(dx, dy) => Follow(dx, dy, l);
        case Write(k, colour) => WritePixel(k, colour, l);
      }
    }

    /** Any packets, with any writes by other code between them, from any screen. */
    method EventLoop(hs: seq<Happening>, ghost l: Layers)
      requires Valid() && Represents(View(), l) && forall i :: 0 <= i < |hs| ==> OnScreenWrite(hs[i])
      modifies this`cursorX, this`cursorY, this`saved, fb
      ensures Valid()
      ensures Represents(View(), Performed(l, old(cursorX), old(cursorY), fb.Length1 - W, fb.Length0 - H, hs, 0))
    {
      ghost var maxX, maxY := fb.Length1 - W, fb.Length0 - H;
      ghost var now := l;
      for i := 0 to |hs|
        invariant Valid() && Represents(View(), now)
        invariant Performed(now, cursorX, cursorY, maxX, maxY, hs, i) ==
          Performed(l, old(cursorX), old(cursorY), maxX, maxY, hs, 0)
      {
        Happen(hs[i], now);
        now := Act(now, ActionOf(hs[i], cursorX, cursorY, maxX, maxY));
      }
    }

    method PlaceAndFollow(x: I32, y: I32, hs: seq<Happening>, ghost l: Layers)
      requires Valid() && Represents(View(), l) && forall i :: 0 <= i < |hs| ==> OnScreenWrite(hs[i])
      modifies this`cursorX, this`cursorY, this`saved, fb
      ensures Valid()
      ensures
        var maxX, maxY := fb.Length1 - W, fb.Length0 - H;
        Represents(View(), Performed(Moved(l, Point(Clamped(x, maxX), Clamped(y, maxY))), x, y, maxX, maxY, hs, 0))
    {
      SetCursorPos(x, y, l);
      EventLoop(hs, Moved(l, Point(Clamped(x, fb.Length1 - W), Clamped(y, fb.Length0 - H))));
    }

    /**
     From boot on: the cursor is put at the centre of a screen that shows none; then packets
     arrive and other code draws.  The screen is what this run leaves, and the cursor visits
     the centre and then exactly the packets' route.
     */
    method Session(hs: seq<Happening>) returns (ghost acts: seq<Action>)
      requires Valid() && saved.None? && forall i :: 0 <= i < |hs| ==> OnScreenWrite(hs[i])
      modifies this`cursorX, this`cursorY, this`saved, fb
      ensures Valid() && Reached(View(), old(Picture()), acts)
      ensures
        var x, y, maxX, maxY := fb.Length1 / 2, fb.Length0 / 2, fb.Length1 - W, fb.Length0 - H;
        var centre := Point(Clamped(x, maxX), Clamped(y, maxY));
        && acts == Actions([Redraw(centre)], x, y, maxX, maxY, hs, 0)
        && Path(acts) == [centre] + Route(x, y, maxX, maxY, PacketsOf(hs))
    {
      ghost var base := Picture();
      var x, y := fb.Length1 / 2, fb.Length0 / 2;
      ghost var maxX, maxY := fb.Length1 - W, fb.Length0 - H;
      ghost var centre := Point(Clamped(x, maxX), Clamped(y, maxY));
      PlaceAndFollow(x, y, hs, Layers(base, base, None));
      acts := SessionRun(View(), base, centre, x, y, maxX, maxY, hs);
    }
  }
}
