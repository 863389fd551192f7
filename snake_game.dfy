/**
 * The snake game: a field of `sizeX` by `sizeY` cells, a snake whose body is
 * an array of points with the head at index 0, a food point, a step budget
 * that eating refills, the eight features the network reads, and the
 * background character buffer that food placement consults.
 */
module Snake {
  import opened Oracle

  datatype Point = Point(x: int, y: int)

  /** DIRECTION: UP=0, DOWN=1, LEFT=2, RIGHT=3, NONE=4. */
  datatype Direction = Up | Down | Left | Right | NoDirection

  function Code(d: Direction): int {
    match d
    case Up => 0
    case Down => 1
    case Left => 2
    case Right => 3
    case NoDirection => 4
  }

  /** The direction an `int` code names, as the C enum reads it. */
  function FromCode(n: int): (d: Direction)
    requires 0 <= n <= 4
    ensures Code(d) == n
  {
    if n == 0 then Up else if n == 1 then Down else if n == 2 then Left
    else if n == 3 then Right else NoDirection
  }

  /** Why the game ended; `NoCause` while it runs. */
  datatype Cause = NoCause | HitItself | HitWall | Hunger

  // ---------------------------------------------------------------------
  // Points and the field
  // ---------------------------------------------------------------------

  /** `_point_is_out_of_field`. */
  predicate OutOfField(p: Point, sx: int, sy: int) {
    p.x < 0 || p.x >= sx || p.y < 0 || p.y >= sy
  }

  /** `_display_get_index`: row-major cell index. */
  function Index(sx: int, p: Point): int {
    p.y * sx + p.x
  }

  function Abs(n: int): int {
    if n < 0 then -n else n
  }

  function Manhattan(a: Point, b: Point): int {
    Abs(a.x - b.x) + Abs(a.y - b.y)
  }

  function Min(a: int, b: int): int {
    if a < b then a else b
  }

  /** Every cell of the field has an index inside the buffer. */
  lemma IndexInRange(sx: int, sy: int, p: Point)
    requires sx > 0 && sy > 0 && !OutOfField(p, sx, sy)
    ensures 0 <= Index(sx, p) < sx * sy
  {
    MulMonotone(p.y, sy - 1, sx);
    assert (sy - 1) * sx + sx == sx * sy;
  }

  /** Distinct cells of the field have distinct indices. */
  lemma IndexInjective(sx: int, sy: int, p: Point, q: Point)
    requires sx > 0 && !OutOfField(p, sx, sy) && !OutOfField(q, sx, sy) && p != q
    ensures Index(sx, p) != Index(sx, q)
  {
    if p.y < q.y {
      MulMonotone(p.y + 1, q.y, sx);
      assert (p.y + 1) * sx == p.y * sx + sx;
    } else if q.y < p.y {
      MulMonotone(q.y + 1, p.y, sx);
      assert (q.y + 1) * sx == q.y * sx + sx;
    }
  }

  /** The cell next to `p` in direction `d`. */
  function Step(p: Point, d: Direction): Point {
    match d
    case Up => Point(p.x, p.y - 1)
    case Down => Point(p.x, p.y + 1)
    case Left => Point(p.x - 1, p.y)
    case Right => Point(p.x + 1, p.y)
    case NoDirection => p
  }

  // ---------------------------------------------------------------------
  // Steering and moving
  // ---------------------------------------------------------------------

  /** `b` is the exact opposite of `a`. */
  predicate Reverses(a: Direction, b: Direction) {
    || (a == Up && b == Down)
    || (a == Down && b == Up)
    || (a == Left && b == Right)
    || (a == Right && b == Left)
  }

  /** The direction `snake_game_set_direction` leaves. */
  function Steer(cur: Direction, req: Direction, prevent: bool): (d: Direction)
    ensures d == req || d == cur
    ensures d != req <==> prevent && Reverses(cur, req)
  {
    if prevent && Reverses(cur, req) then cur else req
  }

  /** With the guard on, the snake never turns straight back, and the request is either taken or refused whole. */
  lemma SteerNeverReverses(cur: Direction, req: Direction)
    ensures !Reverses(cur, Steer(cur, req, true))
    ensures Steer(cur, req, true) == req || (Steer(cur, req, true) == cur && Reverses(cur, req))
  {
  }

  /** Without the guard, or from a standstill, the request is always taken. */
  lemma SteerFree(cur: Direction, req: Direction, prevent: bool)
    requires !prevent || cur == NoDirection
    ensures Steer(cur, req, prevent) == req
  {
  }

  /** `_snake_move` on the body: every segment takes its predecessor's place, the head steps. */
  function Moved(body: seq<Point>, d: Direction): (m: seq<Point>)
    requires |body| >= 1
    ensures |m| == |body|
    ensures d == NoDirection ==> m == body
    ensures d != NoDirection ==> m[0] == Step(body[0], d) && forall i :: 1 <= i < |m| ==> m[i] == body[i - 1]
  {
    if d == NoDirection then body else [Step(body[0], d)] + body[..|body| - 1]
  }

  /** Consecutive segments touch. */
  predicate Chain(body: seq<Point>) {
    forall i :: 1 <= i < |body| ==> Manhattan(body[i - 1], body[i]) == 1
  }

  /**
   * A move keeps the length, vacates the tail cell, occupies the head's next
   * cell, and keeps a touching body touching.
   */
  lemma MovedBody(body: seq<Point>, d: Direction)
    requires |body| >= 1 && d != NoDirection
    ensures |Moved(body, d)| == |body|
    ensures multiset(Moved(body, d)) == multiset(body[..|body| - 1]) + multiset{Step(body[0], d)}
    ensures Manhattan(Moved(body, d)[0], body[0]) == 1
    ensures Chain(body) ==> Chain(Moved(body, d))
  {
    var m := Moved(body, d);
    assert m == [Step(body[0], d)] + body[..|body| - 1];
    if Chain(body) {
      forall i | 1 <= i < |m|
        ensures Manhattan(m[i - 1], m[i]) == 1
      {
        if i > 1 {
          assert m[i - 1] == body[i - 2] && m[i] == body[i - 1];
        }
      }
    }
  }

  /** `_snake_is_hitting_itself`: the head shares a cell with another segment. */
  predicate SelfHit(body: seq<Point>) {
    exists i :: 1 <= i < |body| && body[i] == body[0]
  }

  // ---------------------------------------------------------------------
  // Features: `_game_compute_dist`
  // ---------------------------------------------------------------------

  /** Free cells between the head and each wall: up, down, left, right. */
  function WallDist(sx: int, sy: int, h: Point): seq<int> {
    [h.y, sy - h.y - 1, h.x, sx - h.x - 1]
  }

  /** Signed offsets to the food: up, down, left, right. */
  function FoodDist(h: Point, pt: Point): (f: seq<int>)
    ensures |f| == 4
    ensures Point(h.x + f[3], h.y + f[1]) == pt && Point(h.x - f[2], h.y - f[0]) == pt
  {
    [-(pt.y - h.y), pt.y - h.y, -(pt.x - h.x), pt.x - h.x]
  }

  /** The up/down and left/right offsets are opposite, and together measure the food's Manhattan distance. */
  lemma FoodDistMeasures(h: Point, pt: Point)
    ensures var f := FoodDist(h, pt);
            f[0] == -f[1] && f[2] == -f[3] && Abs(f[1]) + Abs(f[3]) == Manhattan(pt, h)
  {
  }

  /**
   * Segment `q` lies in direction `k` from head `h` as the scan classifies it:
   * same column with `q` above (or on) the head is up, below is down; same row,
   * other column, left or right.
   */
  predicate Aligned(h: Point, q: Point, k: int) {
    if k == 0 then q.x == h.x && h.y - q.y >= 0
    else if k == 1 then q.x == h.x && h.y - q.y < 0
    else if k == 2 then q.x != h.x && q.y == h.y && h.x - q.x > 0
    else k == 3 && q.x != h.x && q.y == h.y && h.x - q.x < 0
  }

  /** How far `q` is from `h` along direction `k`. */
  function Gap(h: Point, q: Point, k: int): int {
    if k == 0 then h.y - q.y
    else if k == 1 then q.y - h.y
    else if k == 2 then h.x - q.x
    else q.x - h.x
  }

  /** One iteration of the body scan: a segment lowers the bound of its direction only if it is nearer than the bound. */
  function ScanStep(h: Point, q: Point, c: seq<int>): (r: seq<int>)
    requires |c| == 4
    ensures |r| == 4
    ensures forall k :: 0 <= k < 4 ==>
              r[k] == if Aligned(h, q, k) && Gap(h, q, k) < c[k] then Gap(h, q, k) - 1 else c[k]
  {
    var dx := h.x - q.x;
    var dy := h.y - q.y;
    if dx == 0 then
      if dy < 0 then (if -dy < c[1] then c[1 := -dy - 1] else c)
      else (if dy < c[0] then c[0 := dy - 1] else c)
    else if dy == 0 then
      if dx < 0 then (if -dx < c[3] then c[3 := -dx - 1] else c)
      else (if dx < c[2] then c[2 := dx - 1] else c)
    else c
  }

  /** The scan over `segs` in order, from bounds `c`. */
  function Scan(h: Point, segs: seq<Point>, c: seq<int>): (r: seq<int>)
    requires |c| == 4
    ensures |r| == 4
    ensures forall k :: 0 <= k < 4 ==> r[k] <= c[k]
    decreases |segs|
  {
    if segs == [] then c
    else ScanStep(h, segs[|segs| - 1], Scan(h, segs[..|segs| - 1], c))
  }

  /** `dist_to_hit`: the nearer of the wall and the scanned body in each direction. */
  function HitDist(sx: int, sy: int, body: seq<Point>): (r: seq<int>)
    requires |body| >= 1
    ensures |r| == 4
  {
    var w := WallDist(sx, sy, body[0]);
    var b := Scan(body[0], body[1..], [sy, sy, sx, sx]);
    [Min(w[0], b[0]), Min(w[1], b[1]), Min(w[2], b[2]), Min(w[3], b[3])]
  }

  /** Each hit distance is the nearer of the wall and the body found by the scan. */
  lemma HitDistNearest(sx: int, sy: int, body: seq<Point>)
    requires |body| >= 1
    ensures forall k :: 0 <= k < 4 ==>
              var r, w, b := HitDist(sx, sy, body)[k], WallDist(sx, sy, body[0])[k], Scan(body[0], body[1..], [sy, sy, sx, sx])[k];
              r <= w && r <= b && (r == w || r == b)
  {
  }

  /** No hit distance exceeds the distance to the wall. */
  lemma HitWithinWalls(sx: int, sy: int, body: seq<Point>)
    requires |body| >= 1
    ensures forall k :: 0 <= k < 4 ==> HitDist(sx, sy, body)[k] <= WallDist(sx, sy, body[0])[k]
  {
  }

  /** A one-cell snake inside the field sees only the walls. */
  lemma LoneSnakeSeesWalls(sx: int, sy: int, body: seq<Point>)
    requires |body| == 1 && !OutOfField(body[0], sx, sy)
    ensures HitDist(sx, sy, body) == WallDist(sx, sy, body[0])
  {
    assert body[1..] == [];
  }

  /**
   * The scan never reports more than a segment's distance in its direction:
   * at worst one cell more than the free cells before the nearest segment.
   */
  lemma {:induction false} ScanAtMostGap(h: Point, segs: seq<Point>, c: seq<int>, j: int, k: int)
    requires |c| == 4 && 0 <= k < 4 && 0 <= j < |segs| && Aligned(h, segs[j], k)
    ensures Scan(h, segs, c)[k] <= Gap(h, segs[j], k)
    decreases |segs|
  {
    var init := segs[..|segs| - 1];
    if j < |segs| - 1 {
      assert init[j] == segs[j];
      ScanAtMostGap(h, init, c, j, k);
    }
  }

  /** The scan never rises above its start and reports either its start or one less than some aligned segment's distance. */
  lemma {:induction false} ScanIsSomeGap(h: Point, segs: seq<Point>, c: seq<int>, k: int)
    requires |c| == 4 && 0 <= k < 4
    ensures Scan(h, segs, c)[k] <= c[k]
    ensures Scan(h, segs, c)[k] == c[k]
            || exists j :: 0 <= j < |segs| && Aligned(h, segs[j], k) && Scan(h, segs, c)[k] == Gap(h, segs[j], k) - 1
    decreases |segs|
  {
    if segs != [] {
      var init := segs[..|segs| - 1];
      ScanIsSomeGap(h, init, c, k);
      if Scan(h, segs, c)[k] != Scan(h, init, c)[k] {
        assert Aligned(h, segs[|segs| - 1], k);
      } else if Scan(h, init, c)[k] != c[k] {
        var j :| 0 <= j < |init| && Aligned(h, init[j], k) && Scan(h, init, c)[k] == Gap(h, init[j], k) - 1;
        assert segs[j] == init[j];
      }
    }
  }

  /**
   * A segment on the head cell counts as "up" at distance 0, so the up
   * feature is at most 0, and exactly -1 when it is the only other segment.
   */
  lemma SegmentOnHead(sx: int, sy: int, body: seq<Point>)
    requires |body| >= 1 && sy > 0 && SelfHit(body)
    ensures HitDist(sx, sy, body)[0] <= 0
    ensures |body| == 2 && body[0].y >= 0 ==> HitDist(sx, sy, body)[0] == -1
  {
    var i :| 1 <= i < |body| && body[i] == body[0];
    var segs := body[1..];
    assert segs[i - 1] == body[0];
    ScanAtMostGap(body[0], segs, [sy, sy, sx, sx], i - 1, 0);
    if |body| == 2 {
      assert segs[..0] == [];
      assert Scan(body[0], segs, [sy, sy, sx, sx]) == ScanStep(body[0], body[0], [sy, sy, sx, sx]);
    }
  }

  /**
   * The scan compares each distance with the bound already lowered by one,
   * so a nearer segment met after a farther one can be missed: here the
   * segment two cells up-and-over is met at distance 5, the one at distance 4
   * after it, and the scan reports 4 free cells upward where there are 3.
   */
  lemma ScanCanOvershoot()
    ensures var h := Point(2, 6);
            var segs := [Point(3, 6), Point(3, 5), Point(3, 4), Point(3, 3), Point(3, 2), Point(3, 1), Point(2, 1), Point(2, 2)];
            && Aligned(h, segs[7], 0) && Gap(h, segs[7], 0) == 4
            && Scan(h, segs, [10, 10, 10, 10])[0] == 4
  {
    var h := Point(2, 6);
    var segs := [Point(3, 6), Point(3, 5), Point(3, 4), Point(3, 3), Point(3, 2), Point(3, 1), Point(2, 1), Point(2, 2)];
    var c := [10, 10, 10, 10];
    assert segs[..1][..0] == [];
    assert Scan(h, segs[..1], c) == [10, 10, 10, 0];
    assert segs[..2][..1] == segs[..1];
    assert Scan(h, segs[..2], c) == [10, 10, 10, 0];
    assert segs[..3][..2] == segs[..2];
    assert Scan(h, segs[..3], c) == [10, 10, 10, 0];
    assert segs[..4][..3] == segs[..3];
    assert Scan(h, segs[..4], c) == [10, 10, 10, 0];
    assert segs[..5][..4] == segs[..4];
    assert Scan(h, segs[..5], c) == [10, 10, 10, 0];
    assert segs[..6][..5] == segs[..5];
    assert Scan(h, segs[..6], c) == [10, 10, 10, 0];
    assert segs[..7][..6] == segs[..6];
    assert Scan(h, segs[..7], c) == [4, 10, 10, 0];
    assert segs[..8][..7] == segs[..7];
    assert segs[..8] == segs;
  }

  // ---------------------------------------------------------------------
  // The background buffer
  // ---------------------------------------------------------------------

  /** The characters of a free cell: food can go where the background shows one of these. */
  predicate Free(c: char) {
    c == ' ' || c == '\0'
  }

  function HeadChar(over: bool): char {
    if over then 'X' else 'O'
  }

  function BodyChar(over: bool): char {
    if over then 'x' else 'o'
  }

  /** The snake part of the background: body segments over the head, blanks elsewhere. */
  function SnakeChar(segs: seq<Point>, over: bool, p: Point): char
    requires |segs| >= 1
  {
    if exists j :: 1 <= j < |segs| && segs[j] == p then BodyChar(over)
    else if segs[0] == p then HeadChar(over)
    else ' '
  }

  /** `_display_update_background` at an in-field cell: the food over the snake over blanks. */
  function Drawn(body: seq<Point>, pt: Point, over: bool, p: Point): char
    requires |body| >= 1
  {
    if p == pt then '*' else SnakeChar(body, over, p)
  }

  /** On a freshly drawn background, a free cell holds neither the snake nor the food. */
  lemma DrawnFreeIsEmpty(body: seq<Point>, pt: Point, over: bool, p: Point)
    requires |body| >= 1 && Free(Drawn(body, pt, over, p))
    ensures p != pt && forall i :: 0 <= i < |body| ==> body[i] != p
  {
  }

  /** The background shows a free cell at `p`. */
  predicate FreeAt(bg: seq<char>, sx: int, p: Point) {
    0 <= Index(sx, p) < |bg| && Free(bg[Index(sx, p)])
  }

  /** The background shows something at `p`. */
  predicate TakenAt(bg: seq<char>, sx: int, p: Point) {
    0 <= Index(sx, p) < |bg| && !Free(bg[Index(sx, p)])
  }

  /** Every in-field cell of `bg` shows the snake `segs`. */
  ghost predicate ShowsSnake(bg: seq<char>, sx: int, sy: int, segs: seq<Point>, over: bool)
    requires |segs| >= 1
  {
    forall p :: !OutOfField(p, sx, sy) ==> 0 <= Index(sx, p) < |bg| && bg[Index(sx, p)] == SnakeChar(segs, over, p)
  }

  /** Every in-field cell of `bg` shows what `_display_update_background` draws there. */
  ghost predicate Rendered(bg: seq<char>, sx: int, sy: int, body: seq<Point>, pt: Point, over: bool)
    requires |body| >= 1
  {
    forall p :: !OutOfField(p, sx, sy) ==> 0 <= Index(sx, p) < |bg| && bg[Index(sx, p)] == Drawn(body, pt, over, p)
  }

  /** A blank buffer with the head drawn (when it is inside) shows the one-segment snake. */
  lemma PaintHead(bg: seq<char>, sx: int, sy: int, h: Point, over: bool)
    requires sx > 0 && sy > 0 && |bg| == sx * sy
    requires forall i :: 0 <= i < |bg| ==> bg[i] == ' '
    ensures !OutOfField(h, sx, sy) ==> 0 <= Index(sx, h) < |bg|
    ensures ShowsSnake(if OutOfField(h, sx, sy) then bg else bg[Index(sx, h) := HeadChar(over)], sx, sy, [h], over)
  {
    if !OutOfField(h, sx, sy) {
      IndexInRange(sx, sy, h);
    }
    var r := if OutOfField(h, sx, sy) then bg else bg[Index(sx, h) := HeadChar(over)];
    forall p | !OutOfField(p, sx, sy)
      ensures 0 <= Index(sx, p) < |r| && r[Index(sx, p)] == SnakeChar([h], over, p)
    {
      IndexInRange(sx, sy, p);
      if p != h && !OutOfField(h, sx, sy) {
        IndexInjective(sx, sy, p, h);
      }
    }
  }

  /** Drawing one more segment (when it is inside) extends what the buffer shows by that segment. */
  lemma PaintSegment(bg: seq<char>, sx: int, sy: int, segs: seq<Point>, q: Point, over: bool)
    requires sx > 0 && sy > 0 && |segs| >= 1 && ShowsSnake(bg, sx, sy, segs, over)
    ensures !OutOfField(q, sx, sy) ==> 0 <= Index(sx, q) < |bg|
    ensures ShowsSnake(if OutOfField(q, sx, sy) then bg else bg[Index(sx, q) := BodyChar(over)], sx, sy, segs + [q], over)
  {
    var r := if OutOfField(q, sx, sy) then bg else bg[Index(sx, q) := BodyChar(over)];
    var t := segs + [q];
    forall p | !OutOfField(p, sx, sy)
      ensures 0 <= Index(sx, p) < |r| && r[Index(sx, p)] == SnakeChar(t, over, p)
    {
      if p == q {
        assert t[|segs|] == p;
      } else {
        if !OutOfField(q, sx, sy) {
          IndexInjective(sx, sy, p, q);
        }
        if exists j :: 1 <= j < |t| && t[j] == p {
          var j :| 1 <= j < |t| && t[j] == p;
          assert segs[j] == p;
        }
        if exists j :: 1 <= j < |segs| && segs[j] == p {
          var j :| 1 <= j < |segs| && segs[j] == p;
          assert t[j] == p;
        }
      }
    }
  }

  /** Drawing the food over a buffer showing the snake gives the rendered background. */
  lemma PaintFood(bg: seq<char>, sx: int, sy: int, body: seq<Point>, pt: Point, over: bool)
    requires sx > 0 && sy > 0 && |body| >= 1 && !OutOfField(pt, sx, sy) && ShowsSnake(bg, sx, sy, body, over)
    ensures 0 <= Index(sx, pt) < |bg|
    ensures Rendered(bg[Index(sx, pt) := '*'], sx, sy, body, pt, over)
  {
    forall p | !OutOfField(p, sx, sy)
      ensures Index(sx, p) != Index(sx, pt) || p == pt
    {
      if p != pt {
        IndexInjective(sx, sy, p, pt);
      }
    }
  }

  // ---------------------------------------------------------------------
  // Ending the game and scoring it
  // ---------------------------------------------------------------------

  /** The terminal check of `snake_game_update`: self-hit, else wall, else hunger, else unchanged. */
  function Verdict(body: seq<Point>, sx: int, sy: int, stepRemain: int, over: int, why: Cause): (v: (int, Cause))
    requires |body| >= 1
    ensures SelfHit(body) || OutOfField(body[0], sx, sy) || stepRemain == 0 ==> v.0 == 1 && v.1 != NoCause
    ensures !(SelfHit(body) || OutOfField(body[0], sx, sy) || stepRemain == 0) ==> v == (over, why)
  {
    if SelfHit(body) then (1, HitItself)
    else if OutOfField(body[0], sx, sy) then (1, HitWall)
    else if stepRemain == 0 then (1, Hunger)
    else (over, why)
  }

  /** A finished game stays finished, and a cause is reported only when its condition holds and no earlier one does. */
  lemma VerdictPriority(body: seq<Point>, sx: int, sy: int, stepRemain: int, over: int, why: Cause)
    requires |body| >= 1
    ensures var v := Verdict(body, sx, sy, stepRemain, over, why);
            && (over == 1 ==> v.0 == 1)
            && (v.1 == HitWall && why != HitWall ==> !SelfHit(body) && OutOfField(body[0], sx, sy))
            && (v.1 == Hunger && why != Hunger ==> !SelfHit(body) && !OutOfField(body[0], sx, sy) && stepRemain == 0)
            && (v.0 != over ==> v.0 == 1 && v.1 != NoCause)
  {
  }

  /** `snake_game_get_performance` on the counters: 0 without score, else score squared times food distance over steps used. */
  function Performance(score: int, toFood: int, used: int): (p: real)
    requires score == 0 || used != 0
    ensures score == 0 ==> p == 0.0
    ensures score != 0 ==> p * used as real == (score * score) as real * toFood as real
  {
    if score == 0 then 0.0
    else (score * score) as real * toFood as real / used as real
  }

  /** Performance is never negative, and positive exactly when something was eaten at some distance. */
  lemma PerformanceOrder(score: int, toFood: int, used: int)
    requires score >= 0 && toFood >= 0 && used > 0
    ensures Performance(score, toFood, used) >= 0.0
    ensures Performance(score, toFood, used) > 0.0 <==> score > 0 && toFood > 0
  {
    var t := toFood as real;
    assert (score * score) as real * t >= 0.0;
    if score > 0 && toFood > 0 {
      assert (score * score) as real > 0.0;
    }
  }

  // ---------------------------------------------------------------------
  // The game object
  // ---------------------------------------------------------------------

  /** Point `n` of a placement attempt: `genRandLong % size` for x, then for y. */
  function Attempt(draws: nat -> Word32, sx: int, sy: int, n: nat): Point
    requires sx > 0 && sy > 0
  {
    Point(draws(n) % sx, draws(n + 1) % sy)
  }

  /** Placement attempt number `k` from draw position `pos` finds a free cell, so the retries end by then. */
  ghost predicate FoodFits(bg: seq<char>, draws: nat -> Word32, pos: nat, sx: int, sy: int, k: nat)
    requires sx > 0 && sy > 0
  {
    FreeAt(bg, sx, Attempt(draws, sx, sy, pos + 2 * k))
  }

  /** The first `n` placement attempts from draw position `pos` all meet an occupied cell. */
  ghost predicate AllTaken(bg: seq<char>, draws: nat -> Word32, pos: nat, sx: int, sy: int, n: nat)
    requires sx > 0 && sy > 0
  {
    forall t: nat :: t < n ==> TakenAt(bg, sx, Attempt(draws, sx, sy, pos + 2 * t))
  }

  lemma AllTakenStep(bg: seq<char>, draws: nat -> Word32, pos: nat, sx: int, sy: int, n: nat)
    requires sx > 0 && sy > 0 && AllTaken(bg, draws, pos, sx, sy, n)
    requires TakenAt(bg, sx, Attempt(draws, sx, sy, pos + 2 * n))
    ensures AllTaken(bg, draws, pos, sx, sy, n + 1)
  {
  }

  /**
   * With a blank background, as training leaves it, the first attempt is
   * accepted wherever it lands, on the snake included.
   */
  lemma BlankAcceptsFirst(bg: seq<char>, draws: nat -> Word32, pos: nat, sx: int, sy: int)
    requires sx > 0 && sy > 0 && |bg| == sx * sy
    requires forall i :: 0 <= i < |bg| ==> bg[i] == ' '
    ensures FoodFits(bg, draws, pos, sx, sy, 0)
  {
    AttemptInField(draws, sx, sy, pos);
  }

  /** Every attempt lands inside the field, on a cell the buffer has. */
  lemma AttemptInField(draws: nat -> Word32, sx: int, sy: int, n: nat)
    requires sx > 0 && sy > 0
    ensures !OutOfField(Attempt(draws, sx, sy, n), sx, sy)
    ensures 0 <= Index(sx, Attempt(draws, sx, sy, n)) < sx * sy
  {
    IndexInRange(sx, sy, Attempt(draws, sx, sy, n));
  }

  /** `SnakeGame`, without the wall-clock gate and the terminal front buffer. */
  class Game {
    const sizeX: int
    const sizeY: int
    const stepPerSec: int
    const maxStep: int
    var initStepToFood: int
    var totalStepToFood: int
    var totalStepUsed: int
    var gameOver: int
    var reason: Cause
    const body: array<Point>
    var snakeLen: int
    var snakeDir: Direction
    var stepRemain: int
    var pt: Point
    const displayBg: array<char>
    const mt: MtRand
    const distToHit: array<int>
    const distToFood: array<int>

    ghost predicate Valid()
      reads this
    {
      && sizeX > 0 && sizeY > 0
      && body.Length == sizeX * sizeY && displayBg.Length == sizeX * sizeY
      && 1 <= snakeLen <= body.Length
      && distToHit.Length == 4 && distToFood.Length == 4 && distToHit != distToFood
      && !OutOfField(pt, sizeX, sizeY)
      && (gameOver == 0 || gameOver == 1)
      && stepRemain <= maxStep && totalStepUsed >= 0 && totalStepToFood >= 0 && initStepToFood >= 0
    }

    /** The snake, head first. */
    ghost function Snake(): seq<Point>
      reads this, body
      requires Valid()
    {
      body[..snakeLen]
    }

    /** `snake_game_get_score`: one less than the length, for the head. */
    function Score(): (r: int)
      reads this
      ensures Valid() ==> 0 <= r < sizeX * sizeY
    {
      snakeLen - 1
    }

    /** `snake_game_create` past its size check: a one-cell snake at a random cell, food placed, features computed. */
    constructor Init(x: int, y: int, stepPerSec: int, maxStep: int, draws: nat -> Word32)
      requires x > 0 && y > 0
      ensures Valid() && fresh(mt) && fresh(body) && fresh(displayBg) && fresh(distToHit) && fresh(distToFood)
      ensures sizeX == x && sizeY == y && this.stepPerSec == stepPerSec && this.maxStep == maxStep
      ensures totalStepToFood == 0 && totalStepUsed == 0 && gameOver == 0 && reason == NoCause
      ensures snakeLen == 1 && snakeDir == NoDirection && stepRemain == maxStep
      ensures mt.stream == draws && mt.pos == 4
      ensures body[0] == Attempt(draws, x, y, 0) && pt == Attempt(draws, x, y, 2)
      ensures initStepToFood == Manhattan(pt, body[0])
      ensures forall i :: 0 <= i < displayBg.Length ==> displayBg[i] == ' '
      ensures distToHit[..] == HitDist(x, y, body[..1]) && distToFood[..] == FoodDist(body[0], pt)
    {
      sizeX := x;
      sizeY := y;
      this.stepPerSec := stepPerSec;
      this.maxStep := maxStep;
      initStepToFood := 0;
      totalStepToFood := 0;
      totalStepUsed := 0;
      gameOver := 0;
      reason := NoCause;
      body := new Point[x * y];
      snakeLen := 1;
      snakeDir := NoDirection;
      stepRemain := maxStep;
      pt := Point(0, 0);
      displayBg := new char[x * y];
      mt := new MtRand(draws);
      distToHit := new int[4];
      distToFood := new int[4];
      new;
      Start();
    }

    /** The drawing part of `snake_game_create`: the head at a random cell, a blank background, the food, the features. */
    method Start()
      requires Valid() && snakeLen == 1
      modifies body, displayBg, mt, this`pt, this`initStepToFood, distToHit, distToFood
      ensures Valid() && mt.pos == old(mt.pos) + 4
      ensures body[0] == Attempt(mt.stream, sizeX, sizeY, old(mt.pos))
      ensures pt == Attempt(mt.stream, sizeX, sizeY, old(mt.pos) + 2)
      ensures initStepToFood == Manhattan(pt, body[0])
      ensures forall i :: 0 <= i < displayBg.Length ==> displayBg[i] == ' '
      ensures distToHit[..] == HitDist(sizeX, sizeY, body[..1]) && distToFood[..] == FoodDist(body[0], pt)
    {
      var head := RandomPoint();
      body[0] := head;
      forall i | 0 <= i < displayBg.Length {
        displayBg[i] := ' ';
      }
      AttemptInField(mt.stream, sizeX, sizeY, mt.pos);
      ghost var tries := PlaceFood(0);
      ComputeDist();
    }

    /** `snake_game_set_direction`: with `prevent_suicide` set, the exact reverse is refused. */
    method SetDirection(dir: Direction, preventSuicide: int)
      modifies this`snakeDir
      ensures snakeDir == Steer(old(snakeDir), dir, preventSuicide != 0)
    {
      if preventSuicide != 0 {
        match snakeDir
        case Up =>
          if dir == Down { return; }
        case Down =>
          if dir == Up { return; }
        case Left =>
          if dir == Right { return; }
        case Right =>
          if dir == Left { return; }
        case NoDirection =>
      }
      snakeDir := dir;
    }

    /** `_snake_move`: nothing happens without a direction; otherwise the body shifts tail first, the head steps and a step is spent. */
    method Move()
      requires Valid()
      modifies body, this`stepRemain
      ensures Valid()
      ensures body[..snakeLen] == Moved(old(body[..snakeLen]), snakeDir)
      ensures body[snakeLen..] == old(body[snakeLen..])
      ensures stepRemain == if snakeDir == NoDirection then old(stepRemain) else old(stepRemain) - 1
    {
      if snakeDir == NoDirection {
        return;
      }
      ghost var b := body[..];
      var i := snakeLen - 1;
      while i > 0
        invariant 0 <= i < snakeLen
        invariant forall k :: 0 <= k <= i ==> body[k] == b[k]
        invariant forall k :: i < k < snakeLen ==> body[k] == b[k - 1]
        invariant forall k :: snakeLen <= k < body.Length ==> body[k] == b[k]
        modifies body
      {
        body[i] := body[i - 1];
        i := i - 1;
      }
      body[0] := Step(body[0], snakeDir);
      stepRemain := stepRemain - 1;
      assert body[..snakeLen] == [Step(b[0], snakeDir)] + b[..snakeLen - 1];
    }

    /** `_snake_eat`: one segment longer, step totals accumulated, budget refilled, new tail off the field. */
    method Eat()
      requires Valid() && snakeLen < body.Length
      modifies this`snakeLen, this`totalStepUsed, this`totalStepToFood, this`stepRemain, body
      ensures Valid()
      ensures snakeLen == old(snakeLen) + 1
      ensures totalStepUsed == old(totalStepUsed) + maxStep - old(stepRemain)
      ensures totalStepToFood == old(totalStepToFood) + initStepToFood
      ensures stepRemain == maxStep
      ensures body[..] == old(body[..])[old(snakeLen) := Point(-1, -1)]
    {
      snakeLen := snakeLen + 1;
      totalStepUsed := totalStepUsed + maxStep - stepRemain;
      totalStepToFood := totalStepToFood + initStepToFood;
      stepRemain := maxStep;
      body[snakeLen - 1] := Point(-1, -1);
    }

    /** `_point_go_random` over the whole field: x from one draw, y from the next. */
    method RandomPoint() returns (p: Point)
      requires sizeX > 0 && sizeY > 0
      modifies mt
      ensures mt.pos == old(mt.pos) + 2 && p == Attempt(mt.stream, sizeX, sizeY, old(mt.pos))
      ensures !OutOfField(p, sizeX, sizeY) && 0 <= Index(sizeX, p) < sizeX * sizeY
    {
      var rx := mt.Next();
      var ry := mt.Next();
      p := Point(rx % sizeX, ry % sizeY);
      AttemptInField(mt.stream, sizeX, sizeY, mt.pos - 2);
    }

    /**
     * The retry loop of `_game_point_go_random`: draws cells until the
     * background shows a free one there. Attempt `k` is known to be free,
     * which ends the retries; `tries` counts the refused ones.
     */
    method SeekFree(ghost k: nat) returns (p: Point, ghost tries: nat)
      requires sizeX > 0 && sizeY > 0 && displayBg.Length == sizeX * sizeY && FoodFits(displayBg[..], mt.stream, mt.pos, sizeX, sizeY, k)
      modifies mt
      ensures tries <= k && mt.pos == old(mt.pos) + 2 * tries + 2
      ensures p == Attempt(mt.stream, sizeX, sizeY, old(mt.pos) + 2 * tries)
      ensures !OutOfField(p, sizeX, sizeY) && FreeAt(displayBg[..], sizeX, p)
      ensures AllTaken(displayBg[..], mt.stream, old(mt.pos), sizeX, sizeY, tries)
    {
      ghost var p0 := mt.pos;
      ghost var bg := displayBg[..];
      tries := 0;
      p := RandomPoint();
      var c := displayBg[Index(sizeX, p)];
      assert Seeking(bg, mt.stream, p0, sizeX, sizeY, k, tries, mt.pos, p, c);
      while c != ' ' && c != '\0'
        invariant Seeking(bg, mt.stream, p0, sizeX, sizeY, k, tries, mt.pos, p, c)
        decreases k - tries
        modifies mt
      {
        SeekOn(bg, mt.stream, p0, sizeX, sizeY, k, tries, mt.pos, p, c);
        tries := tries + 1;
        p := RandomPoint();
        c := displayBg[Index(sizeX, p)];
      }
      SeekDone(bg, mt.stream, p0, sizeX, sizeY, k, tries, mt.pos, p, c);
    }

    /**
     * The retry loop after `tries` refused attempts from draw position `p0`:
     * `p` is the attempt being examined and `c` what the background shows there.
     */
    static ghost predicate Seeking(bg: seq<char>, draws: nat -> Word32, p0: nat, sx: int, sy: int, k: nat,
                                   tries: nat, pos: nat, p: Point, c: char)
      requires sx > 0 && sy > 0
    {
      && tries <= k && pos == p0 + 2 * tries + 2
      && p == Attempt(draws, sx, sy, p0 + 2 * tries) && !OutOfField(p, sx, sy)
      && 0 <= Index(sx, p) < |bg| && c == bg[Index(sx, p)]
      && AllTaken(bg, draws, p0, sx, sy, tries)
    }

    /** A refused attempt cannot be the free attempt `k`, so there is another one to draw. */
    static lemma SeekOn(bg: seq<char>, draws: nat -> Word32, p0: nat, sx: int, sy: int, k: nat,
                        tries: nat, pos: nat, p: Point, c: char)
      requires sx > 0 && sy > 0 && FoodFits(bg, draws, p0, sx, sy, k)
      requires Seeking(bg, draws, p0, sx, sy, k, tries, pos, p, c) && !Free(c)
      ensures tries + 1 <= k && AllTaken(bg, draws, p0, sx, sy, tries + 1)
    {
      AllTakenStep(bg, draws, p0, sx, sy, tries);
    }

    /** A free cell ends the retries with what `SeekFree` promises. */
    static lemma SeekDone(bg: seq<char>, draws: nat -> Word32, p0: nat, sx: int, sy: int, k: nat,
                          tries: nat, pos: nat, p: Point, c: char)
      requires sx > 0 && sy > 0 && Seeking(bg, draws, p0, sx, sy, k, tries, pos, p, c) && Free(c)
      ensures tries <= k && pos == p0 + 2 * tries + 2 && p == Attempt(draws, sx, sy, p0 + 2 * tries)
      ensures !OutOfField(p, sx, sy) && FreeAt(bg, sx, p) && AllTaken(bg, draws, p0, sx, sy, tries)
    {
    }

    /** `_game_point_go_random`: a free cell for the food, and the head's Manhattan distance to it. */
    method PlaceFood(ghost k: nat) returns (ghost tries: nat)
      requires Valid() && FoodFits(displayBg[..], mt.stream, mt.pos, sizeX, sizeY, k)
      modifies this`pt, this`initStepToFood, mt
      ensures Valid() && tries <= k && mt.pos == old(mt.pos) + 2 * tries + 2
      ensures pt == Attempt(mt.stream, sizeX, sizeY, old(mt.pos) + 2 * tries) && FreeAt(displayBg[..], sizeX, pt)
      ensures AllTaken(displayBg[..], mt.stream, old(mt.pos), sizeX, sizeY, tries)
      ensures initStepToFood == Manhattan(pt, body[0])
    {
      var p;
      p, tries := SeekFree(k);
      pt := p;
      initStepToFood := Abs(pt.x - body[0].x) + Abs(pt.y - body[0].y);
    }

    /** `_game_compute_dist`: the hit distances and the food offsets for the current head. */
    method ComputeDist()
      requires Valid()
      modifies distToHit, distToFood
      ensures distToHit[..] == HitDist(sizeX, sizeY, body[..snakeLen])
      ensures distToFood[..] == FoodDist(body[0], pt)
    {
      var h := body[0];
      var toBody := ScanBody();
      distToFood[1] := pt.y - h.y;
      distToFood[0] := -distToFood[1];
      distToFood[3] := pt.x - h.x;
      distToFood[2] := -distToFood[3];
      distToHit[0] := Min(h.y, toBody[0]);
      distToHit[1] := Min(sizeY - h.y - 1, toBody[1]);
      distToHit[2] := Min(h.x, toBody[2]);
      distToHit[3] := Min(sizeX - h.x - 1, toBody[3]);
      assert body[..snakeLen][1..] == body[1..snakeLen];
    }

    /** The body loop of `_game_compute_dist`: each later segment in line with the head bounds that direction. */
    method ScanBody() returns (toBody: seq<int>)
      requires Valid()
      ensures toBody == Scan(body[0], body[1..snakeLen], [sizeY, sizeY, sizeX, sizeX])
    {
      var h := body[0];
      toBody := [sizeY, sizeY, sizeX, sizeX];
      var i := 1;
      while i < snakeLen
        invariant 1 <= i <= snakeLen
        invariant toBody == Scan(h, body[1..i], [sizeY, sizeY, sizeX, sizeX])
      {
        toBody := ScanStep(h, body[i], toBody);
        assert body[1..i + 1][..i - 1] == body[1..i];
        i := i + 1;
      }
    }

    /** The self-hit loop of `_snake_is_hitting_itself`. */
    method IsHittingItself() returns (hit: bool)
      requires Valid()
      ensures hit <==> SelfHit(body[..snakeLen])
    {
      var i := 1;
      while i < snakeLen
        invariant 1 <= i <= snakeLen
        invariant forall j :: 1 <= j < i ==> body[j] != body[0]
      {
        if body[0] == body[i] {
          assert body[..snakeLen][i] == body[..snakeLen][0];
          return true;
        }
        i := i + 1;
      }
      return false;
    }

    /** The terminal check of `snake_game_update`, through `_game_over`. */
    method CheckOver()
      requires Valid()
      modifies this`gameOver, this`reason
      ensures Valid()
      ensures (gameOver, reason) == Verdict(body[..snakeLen], sizeX, sizeY, stepRemain, old(gameOver), old(reason))
    {
      var selfHit := IsHittingItself();
      if selfHit {
        gameOver, reason := 1, HitItself;
      } else if OutOfField(body[0], sizeX, sizeY) {
        gameOver, reason := 1, HitWall;
      } else if stepRemain == 0 {
        gameOver, reason := 1, Hunger;
      }
    }

    /** `snake_game_over`: the game ends at once; a given reason replaces the stored one, none keeps it. */
    method Over(why: Option<Cause>)
      requires Valid()
      modifies this`gameOver, this`reason
      ensures Valid() && gameOver == 1
      ensures why.Some? ==> reason == why.value
      ensures why.None? ==> reason == old(reason)
    {
      if why.Some? {
        reason := why.value;
      }
      gameOver := 1;
    }

    /** `_display_update_background`: blanks, the head, the body segments inside the field, then the food. */
    method UpdateBackground()
      requires Valid()
      modifies displayBg
      ensures Rendered(displayBg[..], sizeX, sizeY, body[..snakeLen], pt, gameOver != 0)
    {
      forall i | 0 <= i < displayBg.Length {
        displayBg[i] := ' ';
      }
      var over := gameOver != 0;
      var headChar := 'O';
      var bodyChar := 'o';
      if over {
        bodyChar := 'x';
        headChar := 'X';
      }
      PaintHead(displayBg[..], sizeX, sizeY, body[0], over);
      if !OutOfField(body[0], sizeX, sizeY) {
        displayBg[Index(sizeX, body[0])] := headChar;
      }
      assert body[..1] == [body[0]];
      var i := 1;
      while i < snakeLen
        invariant 1 <= i <= snakeLen
        invariant ShowsSnake(displayBg[..], sizeX, sizeY, body[..i], over)
        modifies displayBg
      {
        PaintSegment(displayBg[..], sizeX, sizeY, body[..i], body[i], over);
        if !OutOfField(body[i], sizeX, sizeY) {
          displayBg[Index(sizeX, body[i])] := bodyChar;
        }
        assert body[..i + 1] == body[..i] + [body[i]];
        i := i + 1;
      }
      PaintFood(displayBg[..], sizeX, sizeY, body[..snakeLen], pt, over);
      displayBg[Index(sizeX, pt)] := '*';
    }

    /** The first half of `snake_game_update`: the move, then the features for the new head. */
    method Advance()
      requires Valid()
      modifies body, this`stepRemain, distToHit, distToFood
      ensures Valid()
      ensures body[..snakeLen] == Moved(old(body[..snakeLen]), snakeDir)
      ensures body[snakeLen..] == old(body[snakeLen..])
      ensures stepRemain == if snakeDir == NoDirection then old(stepRemain) else old(stepRemain) - 1
      ensures distToHit[..] == HitDist(sizeX, sizeY, body[..snakeLen]) && distToFood[..] == FoodDist(body[0], pt)
    {
      Move();
      ComputeDist();
    }

    /**
     * The eating branch of `snake_game_update`: taken exactly when the head is
     * on the food. The food then goes to the first free attempt, attempt `hit`
     * being known to be free; `tries` counts the refused ones.
     */
    method Feed(ghost hit: nat) returns (ghost tries: nat)
      requires Valid()
      requires body[0] == pt ==> snakeLen < body.Length && FoodFits(displayBg[..], mt.stream, mt.pos, sizeX, sizeY, hit)
      modifies this`snakeLen, this`totalStepUsed, this`totalStepToFood, this`stepRemain, body
      modifies this`pt, this`initStepToFood, mt
      ensures Valid()
      ensures old(body[0] == pt) ==>
                && snakeLen == old(snakeLen) + 1 && body[..] == old(body[..])[old(snakeLen) := Point(-1, -1)]
                && stepRemain == maxStep && totalStepUsed == old(totalStepUsed) + maxStep - old(stepRemain)
                && totalStepToFood == old(totalStepToFood) + old(initStepToFood)
                && tries <= hit && mt.pos == old(mt.pos) + 2 * tries + 2
                && pt == Attempt(mt.stream, sizeX, sizeY, old(mt.pos) + 2 * tries)
                && FreeAt(displayBg[..], sizeX, pt)
                && AllTaken(displayBg[..], mt.stream, old(mt.pos), sizeX, sizeY, tries)
                && initStepToFood == Manhattan(pt, body[0])
      ensures old(body[0] != pt) ==>
                && snakeLen == old(snakeLen) && body[..] == old(body[..]) && stepRemain == old(stepRemain)
                && pt == old(pt) && mt.pos == old(mt.pos) && initStepToFood == old(initStepToFood)
                && totalStepUsed == old(totalStepUsed) && totalStepToFood == old(totalStepToFood)
    {
      tries := 0;
      if body[0] == pt {
        Eat();
        tries := PlaceFood(hit);
      }
    }

    /**
     * The state change of `snake_game_update`: move, compute the features,
     * eat and replace the food if the head reached it, then the terminal check.
     */
    method Tick(ghost hit: nat) returns (ghost tries: nat)
      requires Valid()
      requires Moved(body[..snakeLen], snakeDir)[0] == pt ==>
                 snakeLen < body.Length && FoodFits(displayBg[..], mt.stream, mt.pos, sizeX, sizeY, hit)
      modifies this, body, distToHit, distToFood, mt
      ensures Valid() && snakeDir == old(snakeDir)
      ensures var moved := Moved(old(body[..snakeLen]), snakeDir);
              var left := if snakeDir == NoDirection then old(stepRemain) else old(stepRemain) - 1;
              var ate := moved[0] == old(pt);
              && snakeLen == old(snakeLen) + (if ate then 1 else 0)
              && body[..old(snakeLen)] == moved
              && distToHit[..] == HitDist(sizeX, sizeY, moved)
              && distToFood[..] == FoodDist(moved[0], old(pt))
              && (ate ==> body[old(snakeLen)] == Point(-1, -1) && body[old(snakeLen) + 1..] == old(body[..])[old(snakeLen) + 1..]
                          && stepRemain == maxStep
                          && totalStepUsed == old(totalStepUsed) + maxStep - left
                          && totalStepToFood == old(totalStepToFood) + old(initStepToFood)
                          && tries <= hit && mt.pos == old(mt.pos) + 2 * tries + 2
                          && pt == Attempt(mt.stream, sizeX, sizeY, old(mt.pos) + 2 * tries)
                          && FreeAt(old(displayBg[..]), sizeX, pt)
                          && AllTaken(old(displayBg[..]), mt.stream, old(mt.pos), sizeX, sizeY, tries)
                          && initStepToFood == Manhattan(pt, moved[0]))
              && (!ate ==> body[old(snakeLen)..] == old(body[..])[old(snakeLen)..]
                           && stepRemain == left && pt == old(pt) && mt.pos == old(mt.pos)
                           && initStepToFood == old(initStepToFood)
                           && totalStepToFood == old(totalStepToFood) && totalStepUsed == old(totalStepUsed))
      ensures (gameOver, reason) == Verdict(body[..snakeLen], sizeX, sizeY, stepRemain, old(gameOver), old(reason))
    {
      ghost var len := snakeLen;
      Advance();
      ghost var moved := body[..len];
      tries := Feed(hit);
      assert body[..len] == moved;
      CheckOver();
    }


    /**
     * `snake_game_update` on the training path (`no_wait` set): move, compute
     * the features, eat and replace the food if the head reached it, then the
     * terminal check (all of it `Tick`); redraw the background when asked.
     */
    method Update(updateDisplay: bool, ghost hit: nat) returns (ghost tries: nat)
      requires Valid()
      requires Moved(body[..snakeLen], snakeDir)[0] == pt ==>
                 snakeLen < body.Length && FoodFits(displayBg[..], mt.stream, mt.pos, sizeX, sizeY, hit)
      modifies this, body, displayBg, distToHit, distToFood, mt
      ensures Valid() && snakeDir == old(snakeDir)
      ensures var moved := Moved(old(body[..snakeLen]), snakeDir);
              var left := if snakeDir == NoDirection then old(stepRemain) else old(stepRemain) - 1;
              var ate := moved[0] == old(pt);
              && snakeLen == old(snakeLen) + (if ate then 1 else 0)
              && body[..old(snakeLen)] == moved
              && distToHit[..] == HitDist(sizeX, sizeY, moved)
              && distToFood[..] == FoodDist(moved[0], old(pt))
              && (ate ==> body[old(snakeLen)] == Point(-1, -1) && body[old(snakeLen) + 1..] == old(body[..])[old(snakeLen) + 1..]
                          && stepRemain == maxStep
                          && totalStepUsed == old(totalStepUsed) + maxStep - left
                          && totalStepToFood == old(totalStepToFood) + old(initStepToFood)
                          && tries <= hit && mt.pos == old(mt.pos) + 2 * tries + 2
                          && pt == Attempt(mt.stream, sizeX, sizeY, old(mt.pos) + 2 * tries)
                          && FreeAt(old(displayBg[..]), sizeX, pt)
                          && AllTaken(old(displayBg[..]), mt.stream, old(mt.pos), sizeX, sizeY, tries)
                          && initStepToFood == Manhattan(pt, moved[0]))
              && (!ate ==> body[old(snakeLen)..] == old(body[..])[old(snakeLen)..]
                           && stepRemain == left && pt == old(pt) && mt.pos == old(mt.pos)
                           && initStepToFood == old(initStepToFood)
                           && totalStepToFood == old(totalStepToFood) && totalStepUsed == old(totalStepUsed))
      ensures (gameOver, reason) == Verdict(body[..snakeLen], sizeX, sizeY, stepRemain, old(gameOver), old(reason))
      ensures !updateDisplay ==> displayBg[..] == old(displayBg[..])
      ensures updateDisplay ==> Rendered(displayBg[..], sizeX, sizeY, body[..snakeLen], pt, gameOver != 0)
    {
      tries := Tick(hit);
      if updateDisplay {
        UpdateBackground();
      }
    }
  }

  /**
   * `snake_game_create`: NULL for a negative size. Past that check the C code
   * divides by both sizes, so a zero size is only admitted when the other is
   * negative.
   */
  method Create(x: int, y: int, stepPerSec: int, maxStep: int, draws: nat -> Word32) returns (g: Game?)
    requires x < 0 || y < 0 || (x != 0 && y != 0)
    ensures g == null <==> x < 0 || y < 0
    ensures g != null ==>
              && fresh(g) && g.Valid() && g.sizeX == x && g.sizeY == y
              && g.stepPerSec == stepPerSec && g.maxStep == maxStep
              && g.snakeLen == 1 && g.snakeDir == NoDirection && g.stepRemain == maxStep
              && g.totalStepToFood == 0 && g.totalStepUsed == 0 && g.gameOver == 0 && g.reason == NoCause
              && g.mt.stream == draws && g.mt.pos == 4
              && g.body[0] == Attempt(draws, x, y, 0) && g.pt == Attempt(draws, x, y, 2)
              && g.initStepToFood == Manhattan(g.pt, g.body[0])
              && (forall i :: 0 <= i < g.displayBg.Length ==> g.displayBg[i] == ' ')
              && g.distToHit[..] == HitDist(x, y, g.body[..1]) && g.distToFood[..] == FoodDist(g.body[0], g.pt)
  {
    if x < 0 || y < 0 {
      return null;
    }
    g := new Game.Init(x, y, stepPerSec, maxStep, draws);
  }
}
