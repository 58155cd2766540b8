/** The line rasteriser of the text canvas, an error-term loop with no step counter. */
module CanvasLine {

  datatype Cell = Cell(x: int, y: int)

  /** One attempt to write a glyph on the canvas. */
  datatype Plot = Plot(at: Cell, glyph: char)

  function Abs(n: int): (r: nat)
  {
    if n < 0 then -n else n
  }

  /** Half of n, rounded down; its defining bounds are all that the proofs use. */
  function Halved(n: nat): (h: nat)
    ensures 2 * h <= n <= 2 * h + 1
  {
    if n < 2 then 0 else 1 + Halved(n - 2)
  }

  /** C division by two, which truncates toward zero. */
  function Half(n: int): int
  {
    if n < 0 then -(Halved(-n) as int) else Halved(n)
  }

  // ----- the ideal line -----

  /** The offset along the minor axis, `minor` cells long, of the cell that the
      line occupies after `k` steps along a major axis of `major` cells. */
  function MinorOffset(k: nat, minor: nat, major: nat): nat
    requires minor <= major && 0 < major
  {
    (k * minor + (major - 1 - Halved(major))) / major
  }

  /** The scaled distance of that cell from the ideal line. */
  function Residue(k: nat, minor: nat, major: nat): int
    requires minor <= major && 0 < major
  {
    Halved(major) - k * minor + MinorOffset(k, minor, major) * major
  }

  lemma ResidueInRange(k: nat, minor: nat, major: nat)
    requires minor <= major && 0 < major
    ensures 0 <= Residue(k, minor, major) < major
  {
    var n := k * minor + (major - 1 - Halved(major));
    assert n == major * (n / major) + n % major;
    assert MinorOffset(k, minor, major) * major == major * (n / major);
  }

  lemma ScaledGap(m: int, n: int, major: nat)
    requires m < n
    ensures n * major >= m * major + major
  {
    assert n * major - m * major == (n - m) * major;
    assert (n - m) * major == (n - m - 1) * major + major;
  }

  lemma SameMultiple(base: int, m: int, n: int, major: nat)
    requires 0 <= base + m * major < major && 0 <= base + n * major < major
    ensures m == n
  {
    if m < n {
      ScaledGap(m, n, major);
    } else if n < m {
      ScaledGap(n, m, major);
    }
  }

  /** The offset is the only one whose residue is in range. */
  lemma OffsetUnique(k: nat, minor: nat, major: nat, m: int)
    requires minor <= major && 0 < major
    requires 0 <= Halved(major) - k * minor + m * major < major
    ensures m == MinorOffset(k, minor, major)
  {
    ResidueInRange(k, minor, major);
    SameMultiple(Halved(major) - k * minor, m, MinorOffset(k, minor, major), major);
  }

  /** The minor offset grows by one exactly when the residue is below `minor`. */
  lemma OffsetStep(k: nat, minor: nat, major: nat)
    requires minor <= major && 0 < major
    ensures MinorOffset(k + 1, minor, major)
         == MinorOffset(k, minor, major) + (if Residue(k, minor, major) < minor then 1 else 0)
  {
    ResidueInRange(k, minor, major);
    var q := MinorOffset(k, minor, major);
    var m := q + (if Residue(k, minor, major) < minor then 1 else 0);
    assert (k + 1) * minor == k * minor + minor;
    assert (q + 1) * major == q * major + major;
    OffsetUnique(k + 1, minor, major, m);
  }

  /** The offset is within half a cell of the exact one, k * minor / major. */
  lemma OffsetWithinHalf(k: nat, minor: nat, major: nat)
    requires minor <= major && 0 < major
    ensures 2 * Abs(MinorOffset(k, minor, major) * major - k * minor) <= major
  {
    ResidueInRange(k, minor, major);
  }

  /** The line starts at the first end point and arrives at the second. */
  lemma EndPoints(minor: nat, major: nat)
    requires minor <= major && 0 < major
    ensures MinorOffset(0, minor, major) == 0
    ensures MinorOffset(major, minor, major) == minor
  {
    OffsetUnique(0, minor, major, 0);
    assert Halved(major) - major * minor + minor * major == Halved(major);
    OffsetUnique(major, minor, major, minor);
  }

  /** n cells from a in the direction of b. */
  function Toward(a: int, b: int, n: nat): int
  {
    if a < b then a + n else a - n
  }

  /** A line drawn from `from` down to `to`. */
  datatype Line = Line(from: Cell, to: Cell) {
    function Dx(): nat { Abs(to.x - from.x) }
    function Dy(): nat { Abs(to.y - from.y) }
    function Sx(): int { if from.x < to.x then 1 else -1 }
    function Sy(): int { if from.y < to.y then 1 else -1 }
    function Steps(): nat { if Dx() > Dy() then Dx() else Dy() }

    /** The cell occupied after k steps. */
    function At(k: nat): Cell
    {
      if Steps() == 0 then from
      else if Dx() > Dy() then
        Cell(Toward(from.x, to.x, k), Toward(from.y, to.y, MinorOffset(k, Dy(), Dx())))
      else
        Cell(Toward(from.x, to.x, MinorOffset(k, Dx(), Dy())), Toward(from.y, to.y, k))
    }

    /** What is drawn at the k-th cell: the glyph shows how it was entered. */
    function PlotAt(k: nat): Plot
      requires 0 < k
    {
      var p, q := At(k - 1), At(k);
      if p.x == q.x then Plot(q, '|')
      else if p.y == q.y then Plot(Cell(q.x, if Sy() < 0 then q.y - 1 else q.y), '_')
      else Plot(q, if Sx() == Sy() then '\\' else '/')
    }
  }

  /** The loop starts from the upper of the two end points. */
  function Downward(a: Cell, b: Cell): (l: Line)
    ensures l.from.y <= l.to.y
    ensures l == Line(a, b) || l == Line(b, a)
  {
    if b.y < a.y then Line(b, a) else Line(a, b)
  }

  /** The plots of the first n steps. */
  function FirstPlots(l: Line, n: nat): seq<Plot>
  {
    seq(n, k requires 0 <= k => l.PlotAt(k + 1))
  }

  /** Both end points are on the line, and no cell in between is the last one. */
  lemma Arrival(l: Line, k: nat)
    requires k <= l.Steps()
    ensures l.At(0) == l.from
    ensures l.At(k) == l.to <==> k == l.Steps()
  {
    if l.Steps() != 0 {
      if l.Dx() > l.Dy() {
        EndPoints(l.Dy(), l.Dx());
      } else {
        EndPoints(l.Dx(), l.Dy());
      }
    }
  }

  /** Every visited cell lies on the segment along its longer axis, and within half a cell
      of it along the other: after k of n steps the segment is at from + k / n * (to - from). */
  lemma WithinHalfCell(l: Line, k: nat)
    requires k <= l.Steps()
    ensures var c, n := l.At(k), l.Steps();
            var x, y := (c.x - l.from.x) * n - k * (l.to.x - l.from.x), (c.y - l.from.y) * n - k * (l.to.y - l.from.y);
            if l.Dx() > l.Dy() then x == 0 && 2 * Abs(y) <= n else y == 0 && 2 * Abs(x) <= n
  {
    if l.Steps() == 0 {
      assert k == 0;
    } else if l.Dx() > l.Dy() {
      OffsetWithinHalf(k, l.Dy(), l.Dx());
      Towards(l.from.x, l.to.x, k, k, l.Dx());
      Towards(l.from.y, l.to.y, MinorOffset(k, l.Dy(), l.Dx()), k, l.Dx());
    } else {
      OffsetWithinHalf(k, l.Dx(), l.Dy());
      Towards(l.from.y, l.to.y, k, k, l.Dy());
      Towards(l.from.x, l.to.x, MinorOffset(k, l.Dx(), l.Dy()), k, l.Dy());
    }
  }

  /** Distances along an axis, scaled by the number of steps, up to direction. */
  lemma Towards(a: int, b: int, m: nat, k: nat, n: nat)
    ensures Abs((Toward(a, b, m) - a) * n - k * (b - a)) == Abs(m * n - k * Abs(b - a))
  {
    if a < b {
      assert Toward(a, b, m) - a == m && Abs(b - a) == b - a;
    } else {
      assert Toward(a, b, m) - a == 0 - m;
      assert (0 - m) * n == 0 - m * n;
      assert b - a == 0 - Abs(b - a);
      assert k * (0 - Abs(b - a)) == 0 - k * Abs(b - a);
    }
  }

  /** Consecutive cells touch: each step moves by at most one on each axis, and by
      exactly one on the major axis. */
  lemma Connected(l: Line, k: nat)
    requires k < l.Steps()
    ensures Abs(l.At(k + 1).x - l.At(k).x) <= 1
    ensures Abs(l.At(k + 1).y - l.At(k).y) <= 1
    ensures if l.Dx() > l.Dy() then Abs(l.At(k + 1).x - l.At(k).x) == 1
                               else Abs(l.At(k + 1).y - l.At(k).y) == 1
  {
    if l.Dx() > l.Dy() {
      OffsetStep(k, l.Dy(), l.Dx());
    } else {
      OffsetStep(k, l.Dx(), l.Dy());
    }
  }

  // ----- the loop -----

  /** The error term that the loop holds after k steps. */
  function ErrorTerm(l: Line, k: nat): int
  {
    if l.Steps() == 0 then 0
    else if l.Dx() > l.Dy() then Residue(k, l.Dy(), l.Dx())
    else -Residue(k, l.Dx(), l.Dy())
  }

  lemma ErrorStart(l: Line)
    ensures ErrorTerm(l, 0) == Half(if l.Dx() > l.Dy() then l.Dx() else 0 - l.Dy())
  {
    if l.Steps() != 0 {
      if l.Dx() > l.Dy() {
        EndPoints(l.Dy(), l.Dx());
      } else {
        EndPoints(l.Dx(), l.Dy());
      }
    }
  }

  lemma StepOf(k: nat, minor: nat, major: nat)
    requires minor <= major && 0 < major
    ensures var moves := Residue(k, minor, major) < minor;
            && 0 <= Residue(k, minor, major) < major
            && Residue(k + 1, minor, major)
               == Residue(k, minor, major) - minor + (if moves then major else 0)
            && MinorOffset(k + 1, minor, major)
               == MinorOffset(k, minor, major) + (if moves then 1 else 0)
  {
    ResidueInRange(k, minor, major);
    OffsetStep(k, minor, major);
    var q := MinorOffset(k, minor, major);
    assert (k + 1) * minor == k * minor + minor;
    assert (q + 1) * major == q * major + major;
  }

  /** What the loop computes once before it starts. */
  datatype Slope = Slope(dx: int, dy: int, sx: int, sy: int)

  function SlopeOf(l: Line): Slope
  {
    Slope(l.Dx(), l.Dy(), l.Sx(), l.Sy())
  }

  /** The loop's variables. */
  datatype Pen = Pen(x: int, y: int, err: int)

  function Start(l: Line): Pen
  {
    Pen(l.from.x, l.from.y, Half(if l.Dx() > l.Dy() then l.Dx() else -(l.Dy() as int)))
  }

  /** One pass of the loop. */
  function Pass(g: Slope, p: Pen): Pen
  {
    var right, down := p.err > -g.dx, p.err < g.dy;
    Pen(if right then p.x + g.sx else p.x,
        if down then p.y + g.sy else p.y,
        p.err - (if right then g.dy else 0) + (if down then g.dx else 0))
  }

  predicate Moves(g: Slope, p: Pen)
  {
    p.err > -g.dx || p.err < g.dy
  }

  /** What the pass that starts from p draws. */
  function PassPlot(g: Slope, p: Pen): Plot
  {
    var right, down := p.err > -g.dx, p.err < g.dy;
    var q := Pass(g, p);
    Plot(Cell(q.x, if right && !down && g.sy < 0 then q.y - 1 else q.y),
         if !right then '|' else if !down then '_' else if (g.sx > 0) == (g.sy > 0) then '\\' else '/')
  }

  /** The variables after k passes. */
  function After(g: Slope, p: Pen, k: nat): Pen
  {
    if k == 0 then p else Pass(g, After(g, p, k - 1))
  }

  /** What the first n passes draw. */
  function Drawn(g: Slope, p: Pen, n: nat): seq<Plot>
  {
    if n == 0 then [] else Drawn(g, p, n - 1) + [PassPlot(g, After(g, p, n - 1))]
  }

  lemma PassFollowsLine(l: Line, k: nat)
    requires k < l.Steps()
    ensures var p := Pen(l.At(k).x, l.At(k).y, ErrorTerm(l, k));
            && Pass(SlopeOf(l), p) == Pen(l.At(k + 1).x, l.At(k + 1).y, ErrorTerm(l, k + 1))
            && PassPlot(SlopeOf(l), p) == l.PlotAt(k + 1)
            && Moves(SlopeOf(l), p)
  {
    if l.Dx() > l.Dy() {
      StepOf(k, l.Dy(), l.Dx());
    } else {
      StepOf(k, l.Dx(), l.Dy());
    }
  }

  /** k passes of the error-term loop stand on the k-th cell of the line. */
  lemma {:induction false} LoopFollowsLine(l: Line, k: nat)
    requires k <= l.Steps()
    ensures After(SlopeOf(l), Start(l), k) == Pen(l.At(k).x, l.At(k).y, ErrorTerm(l, k))
  {
    if k == 0 {
      ErrorStart(l);
      Arrival(l, 0);
    } else {
      LoopFollowsLine(l, k - 1);
      PassFollowsLine(l, k - 1);
    }
  }

  predicate At(p: Pen, x: int, y: int)
  {
    p.x == x && p.y == y
  }

  /** The first pass that arrives at the second end point is the Steps()-th, or the
      first one when the end points coincide. */
  lemma FirstArrival(l: Line)
    ensures var steps := if l.Steps() == 0 then 1 else l.Steps();
            && (forall k :: 0 < k <= steps ==>
                 (At(After(SlopeOf(l), Start(l), k), l.to.x, l.to.y) <==> k == steps))
            && (steps == 1 || forall k :: 0 <= k < steps ==> Moves(SlopeOf(l), After(SlopeOf(l), Start(l), k)))
  {
    forall k | 0 <= k < l.Steps()
      ensures Moves(SlopeOf(l), After(SlopeOf(l), Start(l), k))
    {
      LoopFollowsLine(l, k);
      PassFollowsLine(l, k);
    }
    forall k | 0 < k <= l.Steps()
      ensures At(After(SlopeOf(l), Start(l), k), l.to.x, l.to.y) <==> k == l.Steps()
    {
      LoopFollowsLine(l, k);
      Arrival(l, k);
    }
  }

  /** The first n passes draw the first n plots of the line. */
  lemma {:induction false} LoopDrawsLine(l: Line, n: nat)
    requires n <= l.Steps()
    ensures Drawn(SlopeOf(l), Start(l), n) == FirstPlots(l, n)
  {
    if n != 0 {
      LoopDrawsLine(l, n - 1);
      LoopFollowsLine(l, n - 1);
      PassFollowsLine(l, n - 1);
    }
  }

  class Canvas {
    /** Every glyph the line drawing code has asked for, in order. */
    var plots: seq<Plot>

    constructor ()
      ensures plots == []
    {
      plots := [];
    }

    method Write(x: int, y: int, glyph: char)
      modifies this
      ensures plots == old(plots) + [Plot(Cell(x, y), glyph)]
    {
      plots := plots + [Plot(Cell(x, y), glyph)];
    }

    /** Terminates for all end points after Steps() passes (one idle pass when the
        end points coincide). Every pass but the last draws its cell of the line. */
    method DrawDiagonal(x1: int, y1: int, xe: int, ye: int) returns (passes: nat)
      modifies this
      ensures var l := Downward(Cell(x1, y1), Cell(xe, ye));
              && passes == (if l.Steps() == 0 then 1 else l.Steps())
              && plots == old(plots) + FirstPlots(l, passes - 1)
    {
      var x, y, x2, y2 := x1, y1, xe, ye;
      if y2 < y {
        x, y, x2, y2 := x2, y2, x, y;
      }
      var dx: int, dy: int := Abs(x2 - x), Abs(y2 - y);
      var sx := if x < x2 then 1 else -1;
      var sy := if y < y2 then 1 else -1;
      var err := Half(if dx > dy then dx else -dy);
      ghost var l := Downward(Cell(x1, y1), Cell(xe, ye));
      ghost var steps := if l.Steps() == 0 then 1 else l.Steps();
      assert Slope(dx, dy, sx, sy) == SlopeOf(l) && Pen(x, y, err) == Start(l) && l.to == Cell(x2, y2);
      FirstArrival(l);
      passes := DrawLoop(x, y, x2, y2, dx, dy, sx, sy, err, steps);
      LoopDrawsLine(l, passes - 1);
    }

    /** The loop proper; `steps` is the number of passes that it takes to arrive. */
    method DrawLoop(x1: int, y1: int, x2: int, y2: int, dx: int, dy: int, sx: int, sy: int, err1: int,
                    ghost steps: nat)
      returns (passes: nat)
      requires var g, p := Slope(dx, dy, sx, sy), Pen(x1, y1, err1);
               && steps > 0
               && (forall k :: 0 < k <= steps ==> (At(After(g, p, k), x2, y2) <==> k == steps))
               && (steps == 1 || forall k :: 0 <= k < steps ==> Moves(g, After(g, p, k)))
      modifies this
      ensures passes == steps
      ensures plots == old(plots) + Drawn(Slope(dx, dy, sx, sy), Pen(x1, y1, err1), passes - 1)
    {
      var x, y, err, glyph := x1, y1, err1, '\0';
      ghost var g, p := Slope(dx, dy, sx, sy), Pen(x, y, err);
      passes := 0;
      while true
        invariant passes < steps
        invariant Pen(x, y, err) == After(g, p, passes)
        invariant plots == old(plots) + Drawn(g, p, passes)
        decreases steps - passes
      {
        var e2 := err;
        if e2 > -dx {
          glyph := '_';
          err := err - dy;
          x := x + sx;
        }
        if e2 < dy {
          glyph := '|';
          err := err + dx;
          y := y + sy;
        }
        if e2 < dy && e2 > -dx {
          if sy > 0 {
            glyph := if sx > 0 then '\\' else '/';
          } else {
            glyph := if sx > 0 then '/' else '\\';
          }
        }
        passes := passes + 1;
        assert steps == 1 || Moves(g, After(g, p, passes - 1));
        assert At(After(g, p, passes), x2, y2) <==> passes == steps;
        if x == x2 && y == y2 {
          break;
        }
        var i := if glyph == '_' && sy < 0 then 1 else 0;
        Write(x, y - i, glyph);
      }
    }
  }
}
