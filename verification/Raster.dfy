/**
What the line and circle loops of src/framebuffer.rs are meant to visit, stated
without their running error terms.
*/
module Raster {
  import opened Coherence
  import opened Basics

  datatype Point = Point(x: int, y: int)

  function Abs(a: int): nat {
    if a < 0 then -a else a
  }

  // --- lines --------------------------------------------------------------

  /** `i` columns and `j` rows from one end of a line `dx` by `dy` long: at most half a pixel, along
      the minor axis, from the true line. */
  predicate NearLine(i: int, j: int, dx: nat, dy: nat) {
    -Max(dx, dy) <= 2 * (j * dx - i * dy) <= Max(dx, dy)
  }

  /** Point `k` of a line, `k` steps along its longer axis and on the way to the far end. */
  ghost predicate LineStep(p: Point, from: Point, to: Point, k: nat) {
    var dx, dy := Abs(to.x - from.x), Abs(to.y - from.y);
    var i, j := Abs(p.x - from.x), Abs(p.y - from.y);
    && NearLine(i, j, dx, dy)
    && k == (if dx >= dy then i else j)
    && i <= dx && j <= dy
    && p.x == (if from.x < to.x then from.x + i else from.x - i)
    && p.y == (if from.y < to.y then from.y + j else from.y - j)
  }

  /** One pixel for every step along the longer axis, the first and last being the two ends. */
  ghost predicate IsLine(path: seq<Point>, from: Point, to: Point) {
    && |path| == Max(Abs(to.x - from.x), Abs(to.y - from.y)) + 1
    && path[0] == from && path[|path| - 1] == to
    && forall k :: 0 <= k < |path| ==> LineStep(path[k], from, to, k)
  }

  /** Being a whole row past the line's height, or short of it at the far end, is a whole `long` off. */
  lemma RowsOff(long: nat, short: nat, i: nat, j: nat)
    requires i <= long
    ensures j > short ==> j * long - i * short >= long
    ensures j < short ==> j * long - long * short <= -(long as int)
  {
    if j > short {
      MulOrder(long, short + 1, j);
      MulOrder(short, i, long);
    } else if j < short {
      MulOrder(long, j, short - 1);
    }
  }

  /** Along the longer axis the shorter one is never overrun, and is used up exactly at the far end. */
  lemma NearLineArrives(i: nat, j: nat, dx: nat, dy: nat)
    requires NearLine(i, j, dx, dy)
    ensures dx >= dy && i <= dx && dx > 0 ==> j <= dy && (i == dx ==> j == dy)
    ensures dy > dx && j <= dy ==> i <= dx && (j == dy ==> i == dx)
  {
    if dx >= dy && i <= dx {
      RowsOff(dx, dy, i, j);
    }
    if dy > dx && j <= dy {
      RowsOff(dy, dx, j, i);
    }
  }

  /** The loop's variables: offsets from the starting end, and the error. */
  datatype LineState = LineState(i: nat, j: nat, error: int)

  /** One iteration of the line loop. */
  function LineNext(dx: nat, dy: nat, s: LineState): LineState {
    var right, down := 2 * s.error >= -(dy as int), 2 * s.error <= dx;
    LineState(s.i + if right then 1 else 0, s.j + if down then 1 else 0,
              s.error - (if right then dy else 0) + if down then dx else 0)
  }

  function LineAt(dx: nat, dy: nat, k: nat): LineState {
    if k == 0 then LineState(0, 0, dx - dy) else LineNext(dx, dy, LineAt(dx, dy, k - 1))
  }

  /** The error is the distance from the true line, in closed form. */
  predicate LineTrue(dx: nat, dy: nat, s: LineState) {
    NearLine(s.i, s.j, dx, dy) && s.error == dx - dy + (s.j * dx - s.i * dy)
  }

  /** An iteration always steps along the longer axis, and along the shorter one exactly when that
      keeps within half a pixel. */
  lemma LineAdvances(dx: nat, dy: nat, s: LineState)
    requires LineTrue(dx, dy, s)
    ensures var next := LineNext(dx, dy, s);
            LineTrue(dx, dy, next) && (if dx >= dy then next.i == s.i + 1 else next.j == s.j + 1)
  {
    assert (s.j + 1) * dx == s.j * dx + dx && (s.i + 1) * dy == s.i * dy + dy;
  }

  lemma {:induction false} LineStaysTrue(dx: nat, dy: nat, k: nat)
    requires k <= Max(dx, dy)
    ensures LineTrue(dx, dy, LineAt(dx, dy, k))
    ensures k == if dx >= dy then LineAt(dx, dy, k).i else LineAt(dx, dy, k).j
  {
    if k > 0 {
      LineStaysTrue(dx, dy, k - 1);
      LineAdvances(dx, dy, LineAt(dx, dy, k - 1));
    }
  }

  /** The loop's exit test fires at the far end and not before. */
  lemma LineOffsets(dx: nat, dy: nat, k: nat)
    requires k <= Max(dx, dy)
    ensures var state := LineAt(dx, dy, k);
            state.i <= dx && state.j <= dy && (k == Max(dx, dy) <==> state.i == dx && state.j == dy)
  {
    LineStaysTrue(dx, dy, k);
    NearLineArrives(LineAt(dx, dy, k).i, LineAt(dx, dy, k).j, dx, dy);
  }

  /** Where the loop's offsets are on the screen. */
  function Along(from: Point, to: Point, i: nat, j: nat): Point {
    Point(if from.x < to.x then from.x + i else from.x - i, if from.y < to.y then from.y + j else from.y - j)
  }

  function LinePoint(from: Point, to: Point, k: nat): Point {
    var state := LineAt(Abs(to.x - from.x), Abs(to.y - from.y), k);
    Along(from, to, state.i, state.j)
  }

  lemma LinePointSteps(from: Point, to: Point, k: nat)
    requires k <= Max(Abs(to.x - from.x), Abs(to.y - from.y))
    ensures LineStep(LinePoint(from, to, k), from, to, k)
  {
    LineStaysTrue(Abs(to.x - from.x), Abs(to.y - from.y), k);
    LineOffsets(Abs(to.x - from.x), Abs(to.y - from.y), k);
  }

  lemma LinePointBounds(from: Point, to: Point, k: nat)
    requires k <= Max(Abs(to.x - from.x), Abs(to.y - from.y))
    ensures LinePoint(from, to, k) == to <==> k == Max(Abs(to.x - from.x), Abs(to.y - from.y))
    ensures Min(from.x, to.x) <= LinePoint(from, to, k).x && Min(from.y, to.y) <= LinePoint(from, to, k).y
  {
    LineOffsets(Abs(to.x - from.x), Abs(to.y - from.y), k);
  }

  /** Iteration `k` on screen coordinates, exactly as the loop's two tests perform it. */
  ghost predicate MovesAt(path: seq<Point>, errors: seq<int>, from: Point, to: Point, k: nat)
    requires k + 1 < |path| == |errors|
  {
    var dx, dy := Abs(to.x - from.x), Abs(to.y - from.y);
    var right, down := 2 * errors[k] >= -(dy as int), 2 * errors[k] <= dx;
    && path[k + 1].x == path[k].x + (if !right then 0 else if from.x < to.x then 1 else -1)
    && path[k + 1].y == path[k].y + (if !down then 0 else if from.y < to.y then 1 else -1)
    && errors[k + 1] == errors[k] - (if right then dy else 0) + (if down then dx else 0)
  }

  /** A run of the loop: it starts at one end, moves as the loop does, and is at the other end on the
      last iteration and not before. */
  ghost predicate IsRun(path: seq<Point>, errors: seq<int>, from: Point, to: Point) {
    && |path| == |errors| > 0 && path[0] == from
    && errors[0] == Abs(to.x - from.x) - Abs(to.y - from.y)
    && (forall k :: 0 <= k < |path| ==> Min(from.x, to.x) <= path[k].x && Min(from.y, to.y) <= path[k].y)
    && (forall k :: 0 <= k < |path| ==> (path[k] == to <==> k == |path| - 1))
    && (forall k :: 0 <= k < |path| - 1 ==> MovesAt(path, errors, from, to, k))
  }

  /** The run the loop makes. */
  ghost function LinePath(from: Point, to: Point): (path: seq<Point>) {
    seq(Max(Abs(to.x - from.x), Abs(to.y - from.y)) + 1, k requires 0 <= k => LinePoint(from, to, k))
  }

  ghost function LineErrors(from: Point, to: Point): (errors: seq<int>) {
    var dx, dy := Abs(to.x - from.x), Abs(to.y - from.y);
    seq(Max(dx, dy) + 1, k requires 0 <= k => LineAt(dx, dy, k).error)
  }

  lemma LinePathMoves(from: Point, to: Point, k: nat)
    requires k < Max(Abs(to.x - from.x), Abs(to.y - from.y))
    ensures MovesAt(LinePath(from, to), LineErrors(from, to), from, to, k)
  {
    assert LinePath(from, to)[k + 1] == LinePoint(from, to, k + 1);
    assert LinePath(from, to)[k] == LinePoint(from, to, k);
  }

  lemma LinePathIsARun(from: Point, to: Point)
    ensures IsRun(LinePath(from, to), LineErrors(from, to), from, to)
  {
    var path, errors := LinePath(from, to), LineErrors(from, to);
    forall k | 0 <= k < |path|
      ensures Min(from.x, to.x) <= path[k].x && Min(from.y, to.y) <= path[k].y
      ensures path[k] == to <==> k == |path| - 1
    {
      LinePointBounds(from, to, k);
    }
    forall k | 0 <= k < |path| - 1
      ensures MovesAt(path, errors, from, to, k)
    {
      LinePathMoves(from, to, k);
    }
  }

  /** And what the run visits is a line. */
  lemma LinePathIsALine(from: Point, to: Point)
    ensures IsLine(LinePath(from, to), from, to)
  {
    var path := LinePath(from, to);
    forall k | 0 <= k < |path|
      ensures LineStep(path[k], from, to, k)
    {
      LinePointSteps(from, to, k);
    }
    LinePointBounds(from, to, |path| - 1);
  }

  lemma MulOrder(a: nat, b: int, c: int)
    requires b <= c
    ensures a * b <= a * c && b * a <= c * a
  {
  }

  // --- circles ------------------------------------------------------------

  /** `(x, y)` in the first octant is, in its row, a column nearest to the circle. */
  predicate NearCircle(x: int, y: int, r: int) {
    0 <= y <= x && x * x - x + y * y <= r * r <= x * x + x + y * y
  }

  /** As above with no tie: the one nearest column. */
  predicate NearestOnCircle(x: int, y: int, r: int) {
    0 <= y <= x && x * x - x + y * y < r * r < x * x + x + y * y
  }

  /** One column per row of the first octant, down to the diagonal, and no row short: whatever point
      of the octant is strictly nearest to the circle in its row has been visited. */
  ghost predicate IsOctant(columns: seq<int>, r: int) {
    && (forall y :: 0 <= y < |columns| ==> NearCircle(columns[y], y, r))
    && forall x, y :: NearestOnCircle(x, y, r) ==> y < |columns| && columns[y] == x
  }

  /** The running error of the circle loop, in closed form. */
  function CircleError(x: int, y: int, r: int): int {
    (y + 1) * (y + 1) + x * x - x - r * r
  }

  /** What the loop knows on entry to an iteration, inside the octant or one step past it. */
  ghost predicate CircleState(x: int, y: int, r: int, error: int) {
    && y >= 0 && error == CircleError(x, y, r)
    && r * r <= x * x + x + y * y
    && (x >= y ==> NearCircle(x, y, r))
  }

  lemma CircleAdvances(x: int, y: int, r: int, error: int)
    requires x >= y && CircleState(x, y, r, error)
    ensures error < 0 ==> CircleState(x, y + 1, r, error + 2 * (y + 1) + 1)
    ensures error >= 0 ==> CircleState(x - 1, y + 1, r, error + 2 * ((y + 1) - (x - 1)) + 1)
  {
    assert (y + 1) * (y + 1) == y * y + 2 * y + 1;
    assert (y + 2) * (y + 2) == y * y + 4 * y + 4;
    assert (x - 1) * (x - 1) == x * x - 2 * x + 1;
  }

  /** The loop's column and error when it reaches row `y`. */
  function CircleAt(r: nat, y: nat): (int, int) {
    if y == 0 then (r, 1 - r)
    else
      var (x, error) := CircleAt(r, y - 1);
      if error < 0 then (x, error + 2 * y + 1) else (x - 1, error + 2 * (y - (x - 1)) + 1)
  }

  /** The columns the loop has been at, all inside the octant. */
  ghost predicate Visited(columns: seq<int>, r: nat) {
    forall y :: 0 <= y < |columns| ==> columns[y] == CircleAt(r, y).0 >= y
  }

  lemma VisitedGrows(columns: seq<int>, x: int, r: nat)
    requires Visited(columns, r) && x == CircleAt(r, |columns|).0 >= |columns|
    ensures Visited(columns + [x], r)
  {
  }

  lemma {:induction false} CircleStays(r: nat, y: nat)
    requires forall k :: 0 <= k < y ==> CircleAt(r, k).0 >= k
    ensures CircleState(CircleAt(r, y).0, y, r, CircleAt(r, y).1)
  {
    if y > 0 {
      CircleStays(r, y - 1);
      CircleAdvances(CircleAt(r, y - 1).0, y - 1, r, CircleAt(r, y - 1).1);
    }
  }

  lemma ColumnsAreApart(a: int, b: int)
    requires 0 <= a < b
    ensures b * b - b >= a * a + a
  {
    MulOrder(b, a + 1, b);
    MulOrder(a, a, b - 1);
    assert b * b - b == b * (b - 1);
    MulOrder(a + 1, a, b - 1);
    MulOrder(b - 1, a + 1, b);
  }

  lemma NearestIsUnique(a: int, b: int, y: int, r: int)
    requires NearestOnCircle(a, y, r) && NearCircle(b, y, r)
    ensures a == b
  {
    if a < b {
      ColumnsAreApart(a, b);
    } else if b < a {
      ColumnsAreApart(b, a);
    }
  }

  /** Past the octant's last row there is nothing left to visit. */
  lemma OctantEnds(x: int, y: int, r: int, error: int, a: int, b: int)
    requires y - 2 <= x < y && -1 <= x && CircleState(x, y, r, error)
    requires y <= b <= a
    ensures a * a - a + b * b >= r * r
  {
    SquaresGrow(x + 1, y);
    SquaresGrow(y, a);
    SquaresGrow(y, b);
    assert (x + 1) * (x + 1) - (x + 1) == x * x + x;
  }

  lemma OctantIsComplete(columns: seq<int>, r: nat)
    requires Visited(columns, r)
    requires |columns| > 0 && |columns| - 2 <= CircleAt(r, |columns|).0 < |columns|
    ensures IsOctant(columns, r)
  {
    forall y | 0 <= y < |columns|
      ensures NearCircle(columns[y], y, r)
    {
      CircleStays(r, y);
    }
    CircleStays(r, |columns|);
    forall a, b | NearestOnCircle(a, b, r)
      ensures b < |columns| && columns[b] == a
    {
      if b < |columns| {
        NearestIsUnique(a, columns[b], b, r);
      } else {
        OctantEnds(CircleAt(r, |columns|).0, |columns|, r, CircleAt(r, |columns|).1, a, b);
      }
    }
  }

  lemma SquaresGrow(a: int, b: int)
    requires 0 <= a <= b
    ensures a * a <= b * b && a * a - a <= b * b - b
  {
    MulOrder(a, a, b);
    MulOrder(b, a, b);
    if a > 0 {
      MulOrder(a, a - 1, b - 1);
      MulOrder(b - 1, a, b);
      assert a * (a - 1) == a * a - a && b * (b - 1) == b * b - b;
    } else if b > 0 {
      MulOrder(b, 1, b);
    }
  }

  // --- square roots -------------------------------------------------------

  predicate IsRoot(root: int, value: int) {
    0 <= root && root * root <= value < (root + 1) * (root + 1)
  }

  /** A Newton step from above never lands below the root. */
  lemma NewtonStaysAbove(x: nat, value: nat)
    requires x > 0
    ensures value < ((x + value / x) / 2 + 1) * ((x + value / x) / 2 + 1)
  {
    var q := value / x;
    assert value < x * (q + 1) by {
      assert value == x * q + value % x;
    }
    var m := (x + q) / 2 + 1;
    assert 2 * m >= x + q + 1;
    var s := x + (q + 1);
    assert s * s >= 4 * (x * (q + 1)) by {
      var d := x - (q + 1);
      assert d * d >= 0;
      assert s * s == d * d + 4 * (x * (q + 1));
    }
    MulOrder(2 * m, s, 2 * m);
    MulOrder(s, s, 2 * m);
    assert 4 * (m * m) >= s * s;
  }

  /** When a step stops going down, the root has been reached. */
  lemma NewtonStops(x: nat, value: nat)
    requires x > 0 && (x + value / x) / 2 >= x
    ensures x * x <= value
  {
    var q := value / x;
    assert q >= x;
    MulOrder(x, x, q);
    assert value == x * q + value % x;
  }

  lemma OwnGuess(value: nat)
    requires value >= 2
    ensures value / value == 1 && value < (value + 1) * (value + 1)
  {
  }

  /** Newton's method from above ends at the integer square root. */
  method IntegerSqrt(value: nat) returns (root: nat)
    ensures IsRoot(root, value)
  {
    if value < 2 {
      return value;
    }
    var x := value;
    var y := (x + 1) / 2;
    OwnGuess(value);
    while y < x
      invariant x > 0 && y == (x + value / x) / 2
      invariant value < (x + 1) * (x + 1)
      decreases x
    {
      NewtonStaysAbove(x, value);
      assert y > 0;
      x := y;
      y := (x + value / x) / 2;
    }
    NewtonStops(x, value);
    root := x;
  }

  predicate InDisc(dx: int, dy: int, r: int) {
    dx * dx + dy * dy <= r * r
  }

  lemma InRadius(r: nat, dy: int)
    requires Abs(dy) <= r
    ensures dy * dy <= r * r
  {
    MulOrder(Abs(dy), Abs(dy), r);
    MulOrder(r, Abs(dy), r);
    assert dy * dy == Abs(dy) * Abs(dy);
  }

  /** Which makes a disc drawn row by row exactly the disc. */
  lemma RowOfDisc(span: int, r: nat, dy: int)
    requires Abs(dy) <= r && IsRoot(span, r * r - dy * dy)
    ensures forall dx :: InDisc(dx, dy, r) <==> Abs(dx) <= span
  {
    forall dx
      ensures InDisc(dx, dy, r) <==> Abs(dx) <= span
    {
      assert dx * dx == Abs(dx) * Abs(dx);
      if Abs(dx) <= span {
        MulOrder(Abs(dx), Abs(dx), span);
        MulOrder(span, Abs(dx), span);
      } else {
        MulOrder(Abs(dx), span + 1, Abs(dx));
        MulOrder(span + 1, span + 1, Abs(dx));
      }
    }
  }

  lemma OutsideRadius(r: nat, dx: int, dy: int)
    requires Abs(dy) > r
    ensures !InDisc(dx, dy, r)
  {
    MulOrder(Abs(dy), r + 1, Abs(dy));
    MulOrder(r + 1, r + 1, Abs(dy));
    assert dy * dy == Abs(dy) * Abs(dy) && dx * dx >= 0;
  }
}
