/**
Lines, filled rectangles and the large clock digits. A drawn line is exactly the set of pixels that lie
within half a pixel of the ideal line.
*/
module Drawing {
  import opened Pixels

  // ---------- the ideal line ----------

  /** At `k` of `n` steps along the longer axis, `t` is the nearest whole offset along the other axis
      to the ideal m*k/n; halves round up. */
  predicate Nearest(n: nat, m: nat, k: int, t: int) {
    0 <= k <= n && if n == 0 then t == 0 else 2 * (n * t) - n <= 2 * (m * k) < 2 * (n * t) + n
  }

  function Abs(v: int): nat {
    if v < 0 then -v else v
  }

  /** Distance from `a` to `p`, counted positive in the direction of `b`. */
  function Along(a: int, b: int, p: int): int {
    if b < a then a - p else p - a
  }

  /** The pixels of the line from (fx, fy) to (tx, ty). */
  predicate OnLine(fx: int, fy: int, tx: int, ty: int, px: int, py: int) {
    var dx, dy := Abs(tx - fx), Abs(ty - fy);
    if dx > dy then Nearest(dx, dy, Along(fx, tx, px), Along(fy, ty, py))
    else Nearest(dy, dx, Along(fy, ty, py), Along(fx, tx, px))
  }

  lemma MulNext(a: int, b: int)
    ensures a * (b + 1) == a * b + a
  {}

  /** One step of the error term keeps the offset nearest. */
  lemma NearestStep(n: nat, m: nat, k: int, t: int, d: int)
    requires n > 0 && m <= n && k < n && Nearest(n, m, k, t)
    requires d == 2 * (m * k) + 2 * m - n - 2 * (n * t)
    ensures Nearest(n, m, k + 1, if d >= 0 then t + 1 else t)
  {
    MulNext(m, k);
    MulNext(n, t);
  }

  lemma MulOrder(n: nat, a: int, b: int)
    requires n > 0 && a < b
    ensures n * a + n <= n * b
  {
    MulAtLeast(n, b - a);
    assert n * b == n * a + n * (b - a);
  }

  lemma {:induction false} MulAtLeast(n: nat, c: nat)
    requires c >= 1
    ensures n * c >= n
  {
    if c > 1 {
      MulAtLeast(n, c - 1);
      MulNext(n, c - 1);
    }
  }

  lemma NearestUnique(n: nat, m: nat, k: int, t: int, u: int)
    requires Nearest(n, m, k, t) && Nearest(n, m, k, u)
    ensures t == u
  {
    if n > 0 && t < u { MulOrder(n, t, u); }
    if n > 0 && u < t { MulOrder(n, u, t); }
  }

  /** The offset stays between the end points' offsets, and is exact at both ends. */
  lemma NearestInside(n: nat, m: nat, k: int, t: int)
    requires m <= n && Nearest(n, m, k, t)
    ensures 0 <= t <= m
    ensures k == 0 ==> t == 0
    ensures k == n ==> t == m
  {
    if n > 0 {
      NearestAtEnds(n, m);
      if t < 0 { MulOrder(n, t, 0); }
      MulMono(m, k, n);
      assert m * n == n * m;
      if t > m { MulOrder(n, m, t); }
      if k == 0 { NearestUnique(n, m, 0, t, 0); }
      if k == n { NearestUnique(n, m, n, t, m); }
    }
  }

  lemma MulMono(m: nat, a: int, b: int)
    requires a <= b
    ensures m * a <= m * b
  {
    assert m * (b - a) >= 0;
  }

  lemma NearestAtEnds(n: nat, m: nat)
    requires n > 0
    ensures Nearest(n, m, 0, 0) && Nearest(n, m, n, m)
  {
    assert m * n == n * m;
  }

  predicate Between(a: int, b: int, p: int) {
    if a <= b then a <= p <= b else b <= p <= a
  }

  /** At most half a pixel from the ideal line through the end points, measured along the shorter axis. */
  predicate NearIdeal(fx: int, fy: int, tx: int, ty: int, px: int, py: int) {
    var dx, dy := Abs(tx - fx), Abs(ty - fy);
    if dx > dy then 2 * Abs(dx * Along(fy, ty, py) - dy * Along(fx, tx, px)) <= dx
    else 2 * Abs(dy * Along(fx, tx, px) - dx * Along(fy, ty, py)) <= dy
  }

  /** What a line is, whatever its end points: it stays in their bounding box and at most half a pixel
      from the ideal line. */
  lemma {:induction false} LineShape(fx: int, fy: int, tx: int, ty: int, px: int, py: int)
    requires OnLine(fx, fy, tx, ty, px, py)
    ensures Between(fx, tx, px) && Between(fy, ty, py)
    ensures NearIdeal(fx, fy, tx, ty, px, py)
  {
    var dx, dy := Abs(tx - fx), Abs(ty - fy);
    if dx > dy {
      NearestInside(dx, dy, Along(fx, tx, px), Along(fy, ty, py));
    } else {
      NearestInside(dy, dx, Along(fy, ty, py), Along(fx, tx, px));
    }
  }

  /** It contains both end points. */
  lemma LineEnds(fx: int, fy: int, tx: int, ty: int)
    ensures OnLine(fx, fy, tx, ty, fx, fy) && OnLine(fx, fy, tx, ty, tx, ty)
  {
    var dx, dy := Abs(tx - fx), Abs(ty - fy);
    if dx > dy { NearestAtEnds(dx, dy); } else if dy > 0 { NearestAtEnds(dy, dx); }
  }

  /** No two of its pixels share a step along the longer axis. */
  lemma LineOncePerStep(fx: int, fy: int, tx: int, ty: int, px: int, py: int, qx: int, qy: int)
    requires OnLine(fx, fy, tx, ty, px, py) && OnLine(fx, fy, tx, ty, qx, qy)
    requires if Abs(tx - fx) > Abs(ty - fy) then px == qx else py == qy
    ensures px == qx && py == qy
  {
    var dx, dy := Abs(tx - fx), Abs(ty - fy);
    if dx > dy {
      NearestUnique(dx, dy, Along(fx, tx, px), Along(fy, ty, py), Along(fy, ty, qy));
    } else {
      NearestUnique(dy, dx, Along(fy, ty, py), Along(fx, tx, px), Along(fx, tx, qx));
    }
  }

  /** Every step along the longer axis has a pixel. */
  lemma LineHasEveryStep(fx: int, fy: int, tx: int, ty: int, k: int)
    requires 0 <= k <= Abs(tx - fx) || 0 <= k <= Abs(ty - fy)
    ensures var dx, dy := Abs(tx - fx), Abs(ty - fy);
      if dx > dy then exists q :: OnLine(fx, fy, tx, ty, Step(fx, tx, k), q)
      else exists q :: OnLine(fx, fy, tx, ty, q, Step(fy, ty, k))
  {
    var dx, dy := Abs(tx - fx), Abs(ty - fy);
    if dx > dy {
      assert OnLine(fx, fy, tx, ty, Step(fx, tx, k), Step(fy, ty, NearestOffset(dx, dy, k)));
    } else {
      assert OnLine(fx, fy, tx, ty, Step(fx, tx, NearestOffset(dy, dx, k)), Step(fy, ty, k));
    }
  }

  function NearestOffset(n: nat, m: nat, k: nat): (t: nat)
    requires k <= n
    ensures Nearest(n, m, k, t)
  {
    if n == 0 then 0
    else
      var t := (2 * (m * k) + n) / (2 * n);
      assert (2 * n) * t == 2 * (n * t);
      t
  }

  // ---------- drawing a line ----------

  /** The pixels of the line up to step `k` along its longer axis. */
  predicate OnLineUpto(fx: int, fy: int, tx: int, ty: int, k: int, px: int, py: int) {
    && OnLine(fx, fy, tx, ty, px, py)
    && (if Abs(tx - fx) > Abs(ty - fy) then Along(fx, tx, px) else Along(fy, ty, py)) <= k
  }

  /** The position of the pixel at step `k` with offset `t`. */
  function Step(a: int, b: int, k: int): int {
    if b < a then a - k else a + k
  }

  lemma UptoNext(fx: int, fy: int, tx: int, ty: int, k: int, t: int, px: int, py: int)
    requires var dx, dy := Abs(tx - fx), Abs(ty - fy);
      if dx > dy then Nearest(dx, dy, k, t) else Nearest(dy, dx, k, t)
    ensures OnLineUpto(fx, fy, tx, ty, k, px, py) <==>
      || OnLineUpto(fx, fy, tx, ty, k - 1, px, py)
      || (if Abs(tx - fx) > Abs(ty - fy) then px == Step(fx, tx, k) && py == Step(fy, ty, t)
          else px == Step(fx, tx, t) && py == Step(fy, ty, k))
  {
    var dx, dy := Abs(tx - fx), Abs(ty - fy);
    if OnLineUpto(fx, fy, tx, ty, k, px, py) && !OnLineUpto(fx, fy, tx, ty, k - 1, px, py) {
      if dx > dy {
        NearestUnique(dx, dy, k, t, Along(fy, ty, py));
      } else {
        NearestUnique(dy, dx, k, t, Along(fx, tx, px));
      }
    }
  }

  lemma StepInside(a: int, b: int, k: int)
    requires 0 <= k <= Abs(b - a)
    ensures if a <= b then a <= Step(a, b, k) <= b else b <= Step(a, b, k) <= a
    ensures Along(a, b, Step(a, b, k)) == k
    ensures Step(a, b, k) == b <==> k == Abs(b - a)
  {}

  function LineRegion(fx: int, fy: int, tx: int, ty: int): (int, int) -> bool {
    (px, py) => OnLine(fx, fy, tx, ty, px, py)
  }

  function LinePartRegion(fx: int, fy: int, tx: int, ty: int, k: int): (int, int) -> bool {
    (px, py) => OnLineUpto(fx, fy, tx, ty, k, px, py)
  }

  ghost predicate PaintedUpto(a: seq<bv8>, b: seq<bv8>, fx: int, fy: int, tx: int, ty: int, k: int, on: bool) {
    Painted(a, b, LinePartRegion(fx, fy, tx, ty, k), on)
  }

  /** From `a` to `b`, exactly the line was drawn. */
  ghost predicate LinePainted(a: seq<bv8>, b: seq<bv8>, fx: int, fy: int, tx: int, ty: int, on: bool) {
    Painted(a, b, LineRegion(fx, fy, tx, ty), on)
  }

  /** `k` steps and `t` offsets into the line, the error term is `d`. */
  predicate Tracks(n: nat, m: nat, k: int, t: int, d: int) {
    Nearest(n, m, k, t) && d == 2 * (m * k) + 2 * m - n - 2 * (n * t)
  }

  lemma TracksStep(n: nat, m: nat, k: int, t: int, d: int)
    requires n > 0 && m <= n && k < n && Tracks(n, m, k, t, d)
    ensures if d >= 0 then Tracks(n, m, k + 1, t + 1, d - 2 * n + 2 * m) else Tracks(n, m, k + 1, t, d + 2 * m)
  {
    NearestStep(n, m, k, t, d);
    MulNext(m, k);
    MulNext(n, t);
  }

  lemma TracksStart(n: nat, m: nat)
    ensures Tracks(n, m, 0, 0, 2 * m - n)
  {
    if n > 0 { NearestAtEnds(n, m); }
  }

  /** (x, y) is the pixel of the line at step `k`, with offset `t`. */
  predicate At(fx: int, fy: int, tx: int, ty: int, x: int, y: int, k: int, t: int) {
    var dx, dy := Abs(tx - fx), Abs(ty - fy);
    if dx > dy then Nearest(dx, dy, k, t) && x == Step(fx, tx, k) && y == Step(fy, ty, t)
    else Nearest(dy, dx, k, t) && x == Step(fx, tx, t) && y == Step(fy, ty, k)
  }

  lemma PlotRegion(start: seq<bv8>, before: seq<bv8>, now: seq<bv8>, fx: int, fy: int, tx: int, ty: int,
                   x: int, y: int, k: int, t: int, on: bool)
    requires At(fx, fy, tx, ty, x, y, k, t)
    requires PaintedUpto(start, before, fx, fy, tx, ty, k - 1, on)
    requires Painted(before, now, (px, py) => px == x && py == y, on)
    ensures PaintedUpto(start, now, fx, fy, tx, ty, k, on)
  {
    forall px, py | OnScreen(px, py)
      ensures OnLineUpto(fx, fy, tx, ty, k, px, py) ==
        (OnLineUpto(fx, fy, tx, ty, k - 1, px, py) || (px == x && py == y))
    {
      UptoNext(fx, fy, tx, ty, k, t, px, py);
    }
  }

  /** Draws one more pixel of the line. */
  method Plot(buf: array<bv8>, fx: int, fy: int, tx: int, ty: int, x: int, y: int, colour: nat,
              ghost start: seq<bv8>, ghost k: int, ghost t: int)
    requires buf.Length == BUFSIZE && OnScreen(fx, fy) && OnScreen(tx, ty)
    requires At(fx, fy, tx, ty, x, y, k, t)
    requires PaintedUpto(start, buf[..], fx, fy, tx, ty, k - 1, colour != 0)
    modifies buf
    ensures PaintedUpto(start, buf[..], fx, fy, tx, ty, k, colour != 0)
  {
    ghost var dx, dy := Abs(tx - fx), Abs(ty - fy);
    NearestInside(if dx > dy then dx else dy, if dx > dy then dy else dx, k, t);
    StepInside(fx, tx, if dx > dy then k else t);
    StepInside(fy, ty, if dx > dy then t else k);
    ghost var before := buf[..];
    SetPixel(buf, x, y, colour);
    PlotRegion(start, before, buf[..], fx, fy, tx, ty, x, y, k, t, colour != 0);
  }

  /** The state of the loops: the pixel, and the error term for the next one. */
  predicate Going(fx: int, fy: int, tx: int, ty: int, x: int, y: int, d: int, k: int, t: int) {
    var dx, dy := Abs(tx - fx), Abs(ty - fy);
    At(fx, fy, tx, ty, x, y, k, t) && if dx > dy then Tracks(dx, dy, k, t, d) else Tracks(dy, dx, k, t, d)
  }

  /** One pass of the loop of a line that is wider than high. */
  method StepAlongX(fx: int, fy: int, tx: int, ty: int, x: int, y: int, d: int, ghost k: int, ghost t: int)
      returns (x': int, y': int, d': int, ghost t': int)
    requires Abs(tx - fx) > Abs(ty - fy) && k < Abs(tx - fx) && Going(fx, fy, tx, ty, x, y, d, k, t)
    ensures Going(fx, fy, tx, ty, x', y', d', k + 1, t')
  {
    var ax, ay := Abs(tx - fx) * 2, Abs(ty - fy) * 2;
    var sx, sy := if tx < fx then -1 else 1, if ty < fy then -1 else 1;
    TracksStep(Abs(tx - fx), Abs(ty - fy), k, t, d);
    x', y', d', t' := x, y, d, t;
    if d' >= 0 {
      y' := y' + sy;
      d' := d' - ax;
      t' := t' + 1;
    }
    x' := x' + sx;
    d' := d' + ay;
  }

  /** The loop of a line that is wider than high. */
  method LineAlongX(buf: array<bv8>, fx: int, fy: int, tx: int, ty: int, colour: nat, ghost start: seq<bv8>)
    requires buf.Length == BUFSIZE && OnScreen(fx, fy) && OnScreen(tx, ty)
    requires Abs(tx - fx) > Abs(ty - fy)
    requires PaintedUpto(start, buf[..], fx, fy, tx, ty, 0, colour != 0)
    modifies buf
    ensures LinePainted(start, buf[..], fx, fy, tx, ty, colour != 0)
  {
    var x, y := fx, fy;
    var d := Abs(ty - fy) * 2 - Abs(tx - fx) * 2 / 2;
    ghost var k, t := 0, 0;
    TracksStart(Abs(tx - fx), Abs(ty - fy));
    while x != tx
      invariant k <= Abs(tx - fx) && Going(fx, fy, tx, ty, x, y, d, k, t)
      invariant PaintedUpto(start, buf[..], fx, fy, tx, ty, k, colour != 0)
      decreases Abs(tx - fx) - k
    {
      StepInside(fx, tx, k);
      x, y, d, t := StepAlongX(fx, fy, tx, ty, x, y, d, k, t);
      k := k + 1;
      Plot(buf, fx, fy, tx, ty, x, y, colour, start, k, t);
    }
    StepInside(fx, tx, k);
    AllUpto(start, buf[..], fx, fy, tx, ty, k, colour != 0);
  }

  /** One pass of the loop of a line that is at least as high as wide. */
  method StepAlongY(fx: int, fy: int, tx: int, ty: int, x: int, y: int, d: int, ghost k: int, ghost t: int)
      returns (x': int, y': int, d': int, ghost t': int)
    requires Abs(tx - fx) <= Abs(ty - fy) && k < Abs(ty - fy) && Going(fx, fy, tx, ty, x, y, d, k, t)
    ensures Going(fx, fy, tx, ty, x', y', d', k + 1, t')
  {
    var ax, ay := Abs(tx - fx) * 2, Abs(ty - fy) * 2;
    var sx, sy := if tx < fx then -1 else 1, if ty < fy then -1 else 1;
    TracksStep(Abs(ty - fy), Abs(tx - fx), k, t, d);
    x', y', d', t' := x, y, d, t;
    if d' >= 0 {
      x' := x' + sx;
      d' := d' - ay;
      t' := t' + 1;
    }
    y' := y' + sy;
    d' := d' + ax;
  }

  /** The loop of a line that is at least as high as wide. */
  method LineAlongY(buf: array<bv8>, fx: int, fy: int, tx: int, ty: int, colour: nat, ghost start: seq<bv8>)
    requires buf.Length == BUFSIZE && OnScreen(fx, fy) && OnScreen(tx, ty)
    requires Abs(tx - fx) <= Abs(ty - fy)
    requires PaintedUpto(start, buf[..], fx, fy, tx, ty, 0, colour != 0)
    modifies buf
    ensures LinePainted(start, buf[..], fx, fy, tx, ty, colour != 0)
  {
    var x, y := fx, fy;
    var d := Abs(tx - fx) * 2 - Abs(ty - fy) * 2 / 2;
    ghost var k, t := 0, 0;
    TracksStart(Abs(ty - fy), Abs(tx - fx));
    while y != ty
      invariant k <= Abs(ty - fy) && Going(fx, fy, tx, ty, x, y, d, k, t)
      invariant PaintedUpto(start, buf[..], fx, fy, tx, ty, k, colour != 0)
      decreases Abs(ty - fy) - k
    {
      StepInside(fy, ty, k);
      x, y, d, t := StepAlongY(fx, fy, tx, ty, x, y, d, k, t);
      k := k + 1;
      Plot(buf, fx, fy, tx, ty, x, y, colour, start, k, t);
    }
    StepInside(fy, ty, k);
    AllUpto(start, buf[..], fx, fy, tx, ty, k, colour != 0);
  }

  /** Draws a line between two points whose coordinates count from one. */
  method Line(buf: array<bv8>, x1: nat, y1: nat, x2: nat, y2: nat, colour: nat)
    requires buf.Length == BUFSIZE && OnScreen(x1 - 1, y1 - 1) && OnScreen(x2 - 1, y2 - 1)
    modifies buf
    ensures LinePainted(old(buf[..]), buf[..], x1 - 1, y1 - 1, x2 - 1, y2 - 1, colour != 0)
  {
    DrawLine(buf, x1 - 1, y1 - 1, x2 - 1, y2 - 1, colour, buf[..]);
  }

  method DrawLine(buf: array<bv8>, fx: int, fy: int, tx: int, ty: int, colour: nat, ghost start: seq<bv8>)
    requires buf.Length == BUFSIZE && OnScreen(fx, fy) && OnScreen(tx, ty) && start == buf[..]
    modifies buf
    ensures LinePainted(start, buf[..], fx, fy, tx, ty, colour != 0)
  {
    StartLine(buf, fx, fy, tx, ty, colour, start);
    var ax, ay := Abs(tx - fx) * 2, Abs(ty - fy) * 2;
    if ax > ay {
      LineAlongX(buf, fx, fy, tx, ty, colour, start);
    } else {
      LineAlongY(buf, fx, fy, tx, ty, colour, start);
    }
  }

  /** The first end point. */
  method StartLine(buf: array<bv8>, fx: int, fy: int, tx: int, ty: int, colour: nat, ghost start: seq<bv8>)
    requires buf.Length == BUFSIZE && OnScreen(fx, fy) && OnScreen(tx, ty) && start == buf[..]
    modifies buf
    ensures PaintedUpto(start, buf[..], fx, fy, tx, ty, 0, colour != 0)
  {
    NothingUpto(buf[..], fx, fy, tx, ty, colour != 0);
    TracksStart(Abs(tx - fx), Abs(ty - fy));
    TracksStart(Abs(ty - fy), Abs(tx - fx));
    Plot(buf, fx, fy, tx, ty, fx, fy, colour, start, 0, 0);
  }

  lemma NothingUpto(a: seq<bv8>, fx: int, fy: int, tx: int, ty: int, on: bool)
    requires |a| == BUFSIZE
    ensures PaintedUpto(a, a, fx, fy, tx, ty, -1, on)
  {}

  lemma AllUpto(a: seq<bv8>, b: seq<bv8>, fx: int, fy: int, tx: int, ty: int, k: int, on: bool)
    requires PaintedUpto(a, b, fx, fy, tx, ty, k, on)
    requires k == if Abs(tx - fx) > Abs(ty - fy) then Abs(tx - fx) else Abs(ty - fy)
    ensures LinePainted(a, b, fx, fy, tx, ty, on)
  {}

  // ---------- filled rectangles ----------

  lemma HorizontalLine(fx: int, tx: int, y: int, px: int, py: int)
    requires fx != tx
    ensures OnLine(fx, y, tx, y, px, py) <==> Between(fx, tx, px) && py == y
  {
    var n := Abs(tx - fx);
    if OnLine(fx, y, tx, y, px, py) { LineShape(fx, y, tx, y, px, py); }
    assert Nearest(n, 0, Along(fx, tx, px), 0) <==> Between(fx, tx, px);
  }

  /** The pixels of a box given by two corners that count from one. A box without width or without
      height is empty, and so is one whose second row comes before its first. */
  predicate InBox(x1: int, y1: int, x2: int, y2: int, px: int, py: int) {
    x1 != x2 && y1 < y2 && Between(x1 - 1, x2 - 1, px) && y1 - 1 <= py <= y2 - 1
  }

  function BoxRegion(x1: int, y1: int, x2: int, y2: int): (int, int) -> bool {
    (px, py) => InBox(x1, y1, x2, y2, px, py)
  }

  function RowsRegion(x1: int, y1: int, x2: int, y2: int, y: int): (int, int) -> bool {
    (px, py) => InBox(x1, y1, x2, y2, px, py) && py < y
  }

  /** From `a` to `b`, the rows of the box above row `y` were filled. */
  ghost predicate RowsPainted(a: seq<bv8>, b: seq<bv8>, x1: int, y1: int, x2: int, y2: int, y: int, on: bool) {
    Painted(a, b, RowsRegion(x1, y1, x2, y2, y), on)
  }

  /** From `a` to `b`, exactly the box was filled. */
  ghost predicate BoxPainted(a: seq<bv8>, b: seq<bv8>, x1: int, y1: int, x2: int, y2: int, on: bool) {
    Painted(a, b, BoxRegion(x1, y1, x2, y2), on)
  }

  lemma NextRow(a: seq<bv8>, b: seq<bv8>, c: seq<bv8>, x1: int, y1: int, x2: int, y2: int, y: int, on: bool)
    requires x1 != x2 && y1 < y2 && y1 - 1 <= y <= y2 - 1
    requires RowsPainted(a, b, x1, y1, x2, y2, y, on) && LinePainted(b, c, x1 - 1, y, x2 - 1, y, on)
    ensures RowsPainted(a, c, x1, y1, x2, y2, y + 1, on)
  {
    forall px, py | OnScreen(px, py)
      ensures OnLine(x1 - 1, y, x2 - 1, y, px, py) <==> Between(x1 - 1, x2 - 1, px) && py == y
    {
      HorizontalLine(x1 - 1, x2 - 1, y, px, py);
    }
  }

  lemma NoRows(a: seq<bv8>, x1: int, y1: int, x2: int, y2: int, on: bool)
    requires |a| == BUFSIZE
    ensures RowsPainted(a, a, x1, y1, x2, y2, y1 - 1, on)
    ensures x1 == x2 || y1 == y2 ==> BoxPainted(a, a, x1, y1, x2, y2, on)
  {}

  lemma AllRows(a: seq<bv8>, b: seq<bv8>, x1: int, y1: int, x2: int, y2: int, y: int, on: bool)
    requires RowsPainted(a, b, x1, y1, x2, y2, y, on) && y2 <= y
    ensures BoxPainted(a, b, x1, y1, x2, y2, on)
  {}

  /** Fills a box. */
  method FilledRectangle(buf: array<bv8>, x1: nat, y1: nat, x2: nat, y2: nat, colour: nat)
    requires buf.Length == BUFSIZE
    requires x1 != x2 && y1 < y2 ==> OnScreen(x1 - 1, y1 - 1) && OnScreen(x2 - 1, y2 - 1)
    modifies buf
    ensures BoxPainted(old(buf[..]), buf[..], x1, y1, x2, y2, colour != 0)
  {
    ghost var start := buf[..];
    NoRows(start, x1, y1, x2, y2, colour != 0);
    if x1 != x2 && y1 != y2 {
      var y := y1;
      while y <= y2
        invariant y1 <= y
        invariant RowsPainted(start, buf[..], x1, y1, x2, y2, y - 1, colour != 0)
      {
        FillRow(buf, x1, y1, x2, y2, y, colour, start);
        y := y + 1;
      }
      AllRows(start, buf[..], x1, y1, x2, y2, y - 1, colour != 0);
    }
  }

  method FillRow(buf: array<bv8>, x1: nat, y1: nat, x2: nat, y2: nat, y: nat, colour: nat, ghost start: seq<bv8>)
    requires buf.Length == BUFSIZE && x1 != x2 && y1 <= y <= y2 && y1 != y2
    requires OnScreen(x1 - 1, y1 - 1) && OnScreen(x2 - 1, y2 - 1)
    requires RowsPainted(start, buf[..], x1, y1, x2, y2, y - 1, colour != 0)
    modifies buf
    ensures RowsPainted(start, buf[..], x1, y1, x2, y2, y, colour != 0)
  {
    ghost var before := buf[..];
    Line(buf, x1, y, x2, y, colour);
    NextRow(start, before, buf[..], x1, y1, x2, y2, y - 1, colour != 0);
  }
}
