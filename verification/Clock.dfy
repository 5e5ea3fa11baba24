/**
The large clock digits and the clock face. A digit stays inside its cell, shows the classic seven
segments, and the face can be read back.
*/
module Clock {
  import opened Pixels
  import opened Drawing

  /** One filled rectangle, by corners that count from one. */
  datatype Stroke = Stroke(x1: int, y1: int, x2: int, y2: int, on: bool)

  /** A place for a digit that is large enough for its strokes. */
  predicate Cell(x1: int, y1: int, x2: int, y2: int) {
    0 <= x1 && x1 + 15 <= x2 <= WIDTH + 2 && 1 <= y1 && 18 <= y2 <= HEIGHT && y1 + y2 / 2 + 14 <= y2
  }

  /** The strokes of a character, in drawing order; `a` and `b` are the padded columns. */
  function Strokes(num: char, x1: int, y1: int, x2: int, y2: int): seq<Stroke> {
    var a, b, h := x1 + 2, x2 - 2, y1 + y2 / 2;
    match num
    case '-' => [Stroke(a, h - 2, b, h + 2, true)]
    case '.' => [Stroke(b - 5, y2 - 5, b, y2, true)]
    case '0' => [Stroke(a, y1, b, y2, true), Stroke(a + 5, y1 + 5, b - 5, y2 - 6, false)]
    case '1' => [Stroke(b - 5, y1, b, y2, true), Stroke(a, y1, b - 5, y2, false)]
    case '2' => [Stroke(a, y1, b, y2, true), Stroke(a, y1 + 5, b - 5, h - 3, false),
                 Stroke(a + 5, h + 3, b, y2 - 6, false)]
    case '3' => [Stroke(a, y1, b, y2, true), Stroke(a, y1 + 5, b - 5, h - 3, false),
                 Stroke(a, h + 3, b - 5, y2 - 6, false)]
    case '4' => [Stroke(a, y1, b, y2, true), Stroke(a, h + 3, b - 5, y2, false),
                 Stroke(a + 5, y1, b - 5, h - 3, false)]
    case '5' => [Stroke(a, y1, b, y2, true), Stroke(a + 5, y1 + 5, b, h - 3, false),
                 Stroke(a, h + 3, b - 5, y2 - 6, false)]
    case '6' => [Stroke(a, y1, b, y2, true), Stroke(a + 5, y1 + 5, b, h - 3, false),
                 Stroke(a + 5, h + 3, b - 5, y2 - 6, false)]
    case '7' => [Stroke(a, y1, b, y2, true), Stroke(a, y1 + 5, b - 5, y2, false)]
    case '8' => [Stroke(a, y1, b, y2, true), Stroke(a + 5, y1 + 5, b - 5, h - 3, false),
                 Stroke(a + 5, h + 3, b - 5, y2 - 6, false)]
    case '9' => [Stroke(a, y1, b, y2, true), Stroke(a + 5, y1 + 5, b - 5, h - 3, false),
                 Stroke(a, h + 3, b - 5, y2, false)]
    case ':' => [Stroke(b - 5, y1 + 5, b, y1 + 10, true), Stroke(b - 5, y2 - 10, b, y2 - 5, true)]
    case _ => []
  }

  /** A pixel after some strokes: the last stroke that covers it decides. */
  function After(strokes: seq<Stroke>, x: int, y: int, before: bool): bool {
    if strokes == [] then before
    else
      var s := strokes[|strokes| - 1];
      if InBox(s.x1, s.y1, s.x2, s.y2, x, y) then s.on else After(strokes[..|strokes| - 1], x, y, before)
  }

  predicate Inside(x1: int, y1: int, x2: int, y2: int, s: Stroke) {
    x1 + 2 <= s.x1 < s.x2 <= x2 - 2 && y1 <= s.y1 < s.y2 <= y2
  }

  /** Every stroke of a character lies in the padded cell. */
  lemma StrokesInside(num: char, x1: int, y1: int, x2: int, y2: int)
    requires Cell(x1, y1, x2, y2)
    ensures forall i :: 0 <= i < |Strokes(num, x1, y1, x2, y2)| ==>
      Inside(x1, y1, x2, y2, Strokes(num, x1, y1, x2, y2)[i])
  {}

  lemma {:induction false} AfterOutside(strokes: seq<Stroke>, x1: int, y1: int, x2: int, y2: int,
                                        x: int, y: int, before: bool)
    requires forall i :: 0 <= i < |strokes| ==> Inside(x1, y1, x2, y2, strokes[i])
    requires !(x1 + 1 <= x <= x2 - 3 && y1 - 1 <= y <= y2 - 1)
    ensures After(strokes, x, y, before) == before
  {
    if strokes != [] { AfterOutside(strokes[..|strokes| - 1], x1, y1, x2, y2, x, y, before); }
  }

  /** From `a` to `b`, exactly these strokes were drawn, in this order. */
  ghost predicate Drawn(a: seq<bv8>, b: seq<bv8>, strokes: seq<Stroke>) {
    && |a| == |b| == BUFSIZE
    && (forall x, y :: OnScreen(x, y) ==> Lit(b, x, y) == After(strokes, x, y, Lit(a, x, y)))
    && forall i :: WIDTH * HEIGHT / 8 <= i < BUFSIZE ==> b[i] == a[i]
  }

  lemma DrawnNext(a: seq<bv8>, b: seq<bv8>, c: seq<bv8>, strokes: seq<Stroke>, i: nat)
    requires i < |strokes| && Drawn(a, b, strokes[..i])
    requires var s := strokes[i]; BoxPainted(b, c, s.x1, s.y1, s.x2, s.y2, s.on)
    ensures Drawn(a, c, strokes[..i + 1])
  {
    var s := strokes[i];
    assert strokes[..i + 1][..i] == strokes[..i] && strokes[..i + 1][i] == s;
    forall x, y | OnScreen(x, y)
      ensures Lit(c, x, y) == After(strokes[..i + 1], x, y, Lit(a, x, y))
    {
      assert Lit(b, x, y) == After(strokes[..i], x, y, Lit(a, x, y));
    }
  }

  /** A rectangle that is empty or on the screen. */
  predicate Drawable(s: Stroke) {
    && 0 <= s.x1 && 0 <= s.y1 && 0 <= s.x2 && 0 <= s.y2
    && (s.x1 != s.x2 && s.y1 < s.y2 ==> OnScreen(s.x1 - 1, s.y1 - 1) && OnScreen(s.x2 - 1, s.y2 - 1))
  }

  predicate AllDrawable(strokes: seq<Stroke>) {
    forall i :: 0 <= i < |strokes| ==> Drawable(strokes[i])
  }

  /** In a cell that is large enough, every stroke can be drawn. */
  lemma CellDrawable(num: char, x1: int, y1: int, x2: int, y2: int)
    requires Cell(x1, y1, x2, y2)
    ensures AllDrawable(Strokes(num, x1, y1, x2, y2))
  {
    StrokesInside(num, x1, y1, x2, y2);
  }

  /** Draws one character, in any place where its rectangles stay on the screen. */
  method DrawBignum(buf: array<bv8>, x1: nat, y1: nat, x2: nat, y2: nat, num: char)
    requires buf.Length == BUFSIZE && AllDrawable(Strokes(num, x1, y1, x2, y2))
    modifies buf
    ensures Drawn(old(buf[..]), buf[..], Strokes(num, x1, y1, x2, y2))
  {
    ghost var start := buf[..];
    var strokes := Strokes(num, x1, y1, x2, y2);
    var i := 0;
    while i < |strokes|
      invariant 0 <= i <= |strokes| && Drawn(start, buf[..], strokes[..i])
    {
      var s := strokes[i];
      assert Drawable(s);
      ghost var before := buf[..];
      FilledRectangle(buf, s.x1, s.y1, s.x2, s.y2, if s.on then 1 else 0);
      DrawnNext(start, before, buf[..], strokes, i);
      i := i + 1;
    }
    assert strokes[..i] == strokes;
  }

  method DrawInCell(buf: array<bv8>, x1: nat, y1: nat, x2: nat, y2: nat, num: char)
    requires buf.Length == BUFSIZE && Cell(x1, y1, x2, y2)
    modifies buf
    ensures Drawn(old(buf[..]), buf[..], Strokes(num, x1, y1, x2, y2))
  {
    CellDrawable(num, x1, y1, x2, y2);
    DrawBignum(buf, x1, y1, x2, y2, num);
  }

  /** No pixel outside the padded cell changes, whatever the character. */
  lemma CellFrame(a: seq<bv8>, b: seq<bv8>, num: char, x1: int, y1: int, x2: int, y2: int, x: int, y: int)
    requires Cell(x1, y1, x2, y2) && Drawn(a, b, Strokes(num, x1, y1, x2, y2)) && OnScreen(x, y)
    requires !(x1 + 1 <= x <= x2 - 3 && y1 - 1 <= y <= y2 - 1)
    ensures Lit(b, x, y) == Lit(a, x, y)
  {
    StrokesInside(num, x1, y1, x2, y2);
    AfterOutside(Strokes(num, x1, y1, x2, y2), x1, y1, x2, y2, x, y, Lit(a, x, y));
  }

  // ---------- seven segments ----------

  datatype Segments = Segments(top: bool, upperLeft: bool, upperRight: bool, middle: bool,
                               lowerLeft: bool, lowerRight: bool, bottom: bool)

  /** The usual seven-segment digits (with the straight 9 and the hooked 6); the colon shows as an
      upper dot only at the places looked at. */
  function Display(num: char): Segments
    requires '0' <= num <= ':'
  {
    match num
    case '0' => Segments(true, true, true, false, true, true, true)
    case '1' => Segments(false, false, true, false, false, true, false)
    case '2' => Segments(true, false, true, true, true, false, true)
    case '3' => Segments(true, false, true, true, false, true, true)
    case '4' => Segments(false, true, true, true, false, true, false)
    case '5' => Segments(true, true, false, true, false, true, true)
    case '6' => Segments(true, true, false, true, true, true, true)
    case '7' => Segments(true, false, true, false, false, true, false)
    case '8' => Segments(true, true, true, true, true, true, true)
    case '9' => Segments(true, true, true, true, false, true, false)
    case ':' => Segments(false, false, true, false, false, false, false)
  }

  lemma DisplayInjective(c: char, d: char)
    requires '0' <= c <= ':' && '0' <= d <= ':' && Display(c) == Display(d)
    ensures c == d
  {}

  /** Seven places of a cell, one in each segment. */
  function Look(pixel: (int, int) -> bool, x1: int, y1: int, x2: int, y2: int): Segments {
    var l, m, r := x1 + 2, x1 + 6, x2 - 3;
    var u, h, d := y1 + 4, y1 + y2 / 2 - 1, y1 + y2 / 2 + 2;
    Segments(pixel(m, y1 - 1), pixel(l, u), pixel(r, u), pixel(m, h), pixel(l, d), pixel(r, d), pixel(m, y2 - 1))
  }

  /** `After` on a dark background, spelled out for up to three strokes. */
  function AfterThree(s: seq<Stroke>, x: int, y: int): bool
    requires |s| <= 3
  {
    if |s| > 2 && InBox(s[2].x1, s[2].y1, s[2].x2, s[2].y2, x, y) then s[2].on
    else if |s| > 1 && InBox(s[1].x1, s[1].y1, s[1].x2, s[1].y2, x, y) then s[1].on
    else if |s| > 0 && InBox(s[0].x1, s[0].y1, s[0].x2, s[0].y2, x, y) then s[0].on
    else false
  }

  lemma UnfoldThree(s: seq<Stroke>, x: int, y: int)
    requires |s| <= 3
    ensures After(s, x, y, false) == AfterThree(s, x, y)
  {
    if |s| > 0 {
      var t := s[..|s| - 1];
      if |t| > 0 {
        var u := t[..|t| - 1];
        assert |u| > 0 ==> u[..|u| - 1] == [];
      }
    }
  }

  lemma LowDigitsShow(num: char, x1: int, y1: int, x2: int, y2: int)
    requires Cell(x1, y1, x2, y2) && '0' <= num <= '4'
    ensures Look((x, y) => AfterThree(Strokes(num, x1, y1, x2, y2), x, y), x1, y1, x2, y2) == Display(num)
  {}

  lemma HighDigitsShow(num: char, x1: int, y1: int, x2: int, y2: int)
    requires Cell(x1, y1, x2, y2) && '5' <= num <= ':'
    ensures Look((x, y) => AfterThree(Strokes(num, x1, y1, x2, y2), x, y), x1, y1, x2, y2) == Display(num)
  {}

  /** A character on a dark background. */
  function Glyph(num: char, x1: int, y1: int, x2: int, y2: int): (int, int) -> bool {
    (x, y) => After(Strokes(num, x1, y1, x2, y2), x, y, false)
  }

  /** In any cell, on a dark background, a character shows its seven segments. */
  lemma ShowsSegments(num: char, x1: int, y1: int, x2: int, y2: int)
    requires Cell(x1, y1, x2, y2) && '0' <= num <= ':'
    ensures Look(Glyph(num, x1, y1, x2, y2), x1, y1, x2, y2) == Display(num)
  {
    var s := Strokes(num, x1, y1, x2, y2);
    assert |s| <= 3;
    forall x, y ensures After(s, x, y, false) == AfterThree(s, x, y) { UnfoldThree(s, x, y); }
    if num <= '4' { LowDigitsShow(num, x1, y1, x2, y2); } else { HighDigitsShow(num, x1, y1, x2, y2); }
  }

  /** The bars of a digit that are lit at a pixel: five pixels wide, the bottom one six. */
  predicate Bars(s: Segments, x1: int, y1: int, x2: int, y2: int, x: int, y: int) {
    var left, right, middle := x1 + 1, x2 - 3, y1 + y2 / 2 - 1;
    left <= x <= right && y1 - 1 <= y < y2 &&
    (|| (s.top && y < y1 + 4)
     || (s.upperLeft && x < left + 5 && y <= middle + 2)
     || (s.upperRight && x > right - 5 && y <= middle + 2)
     || (s.middle && middle - 2 <= y <= middle + 2)
     || (s.lowerLeft && x < left + 5 && y >= middle - 2)
     || (s.lowerRight && x > right - 5 && y >= middle - 2)
     || (s.bottom && y >= y2 - 6))
  }

  /** What a character should look like: a digit its bars; the colon two dots at the right of its cell, five
      pixels from the top and from the bottom; the full stop one at the bottom; the dash the middle bar. */
  predicate Looks(num: char, x1: int, y1: int, x2: int, y2: int, x: int, y: int) {
    var right, top, bottom := x2 - 3, y1 - 1, y2 - 1;
    match num
    case ':' => right - 6 < x <= right && (5 <= y - top < 11 || 5 <= bottom - y < 11)
    case '.' => right - 6 < x <= right && 0 <= bottom - y < 6
    case '-' => Bars(Segments(false, false, false, true, false, false, false), x1, y1, x2, y2, x, y)
    case _ => '0' <= num <= '9' && Bars(Display(num), x1, y1, x2, y2, x, y)
  }

  /** Exactly the pixels are lit that should be: those drawn and not erased again. */
  lemma GlyphLooks(num: char, x1: int, y1: int, x2: int, y2: int, x: int, y: int)
    requires Cell(x1, y1, x2, y2)
    ensures Glyph(num, x1, y1, x2, y2)(x, y) <==> Looks(num, x1, y1, x2, y2, x, y)
  {
    if num < '0' || '9' < num {
      UnfoldThree(Strokes(num, x1, y1, x2, y2), x, y);
    } else if num <= '4' {
      LowDigitLooks(num, x1, y1, x2, y2, x, y);
    } else {
      HighDigitLooks(num, x1, y1, x2, y2, x, y);
    }
  }

  lemma LowDigitLooks(num: char, x1: int, y1: int, x2: int, y2: int, x: int, y: int)
    requires Cell(x1, y1, x2, y2) && '0' <= num <= '4'
    ensures Glyph(num, x1, y1, x2, y2)(x, y) <==> Looks(num, x1, y1, x2, y2, x, y)
  {
    UnfoldThree(Strokes(num, x1, y1, x2, y2), x, y);
  }

  lemma HighDigitLooks(num: char, x1: int, y1: int, x2: int, y2: int, x: int, y: int)
    requires Cell(x1, y1, x2, y2) && '5' <= num <= '9'
    ensures Glyph(num, x1, y1, x2, y2)(x, y) <==> Looks(num, x1, y1, x2, y2, x, y)
  {
    UnfoldThree(Strokes(num, x1, y1, x2, y2), x, y);
  }

  // ---------- the clock face ----------

  /** Left edge of the first cell; a time that starts with a one is set further left. */
  function LeftEdge(text: string): int {
    80 - (20 * |text| + if text != [] && text[0] == '1' then 15 else 0) / 2
  }

  /** The face is set in the middle, a leading one counting for 15 pixels more. */
  lemma Centred(text: string)
    requires |text| <= 5
    ensures var width := 20 * |text| + if "1" <= text then 15 else 0;
      var right := WIDTH - (LeftEdge(text) + width);
      LeftEdge(text) == right || LeftEdge(text) == right + 1
  {}

  /** What the face shows: each column of 20 pixels belongs to one character, and only that character
      and its column decide its pixels. */
  predicate Face(text: string, cols: nat, x: int, y: int)
    requires cols <= |text|
  {
    var left := LeftEdge(text);
    left <= x && (x - left) / 20 < cols &&
    var col := (x - left) / 20;
    var x1 := left + 20 * col;
    After(Strokes(text[col], x1, 1, x1 + 20, HEIGHT), x, y, false)
  }

  lemma FaceNext(a: seq<bv8>, b: seq<bv8>, text: string, col: nat, x: int, y: int)
    requires col < |text| && |text| <= 5 && OnScreen(x, y)
    requires Lit(a, x, y) == Face(text, col, x, y)
    requires var x1 := LeftEdge(text) + 20 * col; Drawn(a, b, Strokes(text[col], x1, 1, x1 + 20, HEIGHT))
    ensures Lit(b, x, y) == Face(text, col + 1, x, y)
  {
    var left := LeftEdge(text);
    var x1 := left + 20 * col;
    ColumnOf(left, col, x);
    if left <= x && (x - left) / 20 == col {
      assert !Lit(a, x, y);
    } else {
      CellFrame(a, b, text[col], x1, 1, x1 + 20, HEIGHT, x, y);
    }
  }

  lemma ColumnOf(left: int, col: nat, x: int)
    ensures left <= x && (x - left) / 20 == col <==> left + 20 * col <= x < left + 20 * col + 20
    ensures left <= x ==> ((x - left) / 20 < col + 1 <==> (x - left) / 20 < col || (x - left) / 20 == col)
  {}

  /** Draws the time onto a cleared screen. */
  method DrawClock(buf: array<bv8>, text: string)
    requires buf.Length == BUFSIZE && |text| <= 5
    modifies buf
    ensures forall x, y :: OnScreen(x, y) ==> Lit(buf[..], x, y) == Face(text, |text|, x, y)
    ensures forall i :: 1024 <= i < BUFSIZE ==> buf[i] == old(buf[i])
  {
    ghost var start := buf[..];
    forall i | 0 <= i < 1024 { buf[i] := 0; }
    ClearedIsDark(buf[..]);
    var left := LeftEdge(text);
    var col := 0;
    while col < |text|
      invariant col <= |text|
      invariant forall x, y :: OnScreen(x, y) ==> Lit(buf[..], x, y) == Face(text, col, x, y)
      invariant forall i :: 1024 <= i < BUFSIZE ==> buf[..][i] == start[i]
    {
      ghost var before := buf[..];
      DrawInCell(buf, left + col * 20, 1, left + (col + 1) * 20, HEIGHT, text[col]);
      forall x, y | OnScreen(x, y) ensures Lit(buf[..], x, y) == Face(text, col + 1, x, y) {
        FaceNext(before, buf[..], text, col, x, y);
      }
      col := col + 1;
    }
  }

  lemma ClearedIsDark(s: seq<bv8>)
    requires |s| == BUFSIZE && forall i :: 0 <= i < 1024 ==> s[i] == 0
    ensures forall x, y :: OnScreen(x, y) ==> !Lit(s, x, y)
  {
    forall x, y | OnScreen(x, y) ensures !Lit(s, x, y) {
      var k := WIDTH * y + x;
      assert s[k / 8] == 0;
    }
  }

  predicate IsTime(text: string)
  {
    |text| <= 5 && forall i :: 0 <= i < |text| ==> '0' <= text[i] <= ':'
  }

  /** The picture of a face. */
  function Picture(text: string): (int, int) -> bool {
    (x, y) => Face(text, |text|, x, y)
  }

  /** Seven places of a column of the picture show the character that stands there. */
  ghost predicate Tells(f: (int, int) -> bool, text: string, col: nat)
    requires IsTime(text) && col < |text|
  {
    var x1 := LeftEdge(text) + 20 * col;
    Look(f, x1, 1, x1 + 20, HEIGHT) == Display(text[col])
  }

  ghost predicate Agree(f: (int, int) -> bool, g: (int, int) -> bool, x1: int) {
    forall x, y :: x1 <= x < x1 + 20 ==> f(x, y) == g(x, y)
  }

  lemma LookInside(f: (int, int) -> bool, g: (int, int) -> bool, x1: int)
    requires Agree(f, g, x1)
    ensures Look(f, x1, 1, x1 + 20, HEIGHT) == Look(g, x1, 1, x1 + 20, HEIGHT)
  {}

  lemma PictureInColumn(text: string, col: nat, x: int, y: int)
    requires col < |text| && LeftEdge(text) + 20 * col <= x < LeftEdge(text) + 20 * col + 20
    ensures var x1 := LeftEdge(text) + 20 * col;
      Picture(text)(x, y) == Glyph(text[col], x1, 1, x1 + 20, HEIGHT)(x, y)
  {
    assert (x - LeftEdge(text)) / 20 == col;
  }

  /** The finished face: a pixel is lit if and only if it is in some character's column of 20 pixels, and that
      character is lit there. */
  lemma PictureIsTheTime(text: string, x: int, y: int)
    requires |text| <= 5
    ensures Picture(text)(x, y) <==>
      exists col :: 0 <= col < |text| && InColumn(text, col, x) && ColumnLooks(text, col, x, y)
  {
    forall col | 0 <= col < |text| && InColumn(text, col, x)
      ensures ColumnLooks(text, col, x, y) <==> Picture(text)(x, y)
    {
      ColumnIsLit(text, col, x, y);
    }
    if Picture(text)(x, y) { assert InColumn(text, (x - LeftEdge(text)) / 20, x); }
  }

  lemma ColumnIsLit(text: string, col: int, x: int, y: int)
    requires |text| <= 5 && 0 <= col < |text| && InColumn(text, col, x)
    ensures Picture(text)(x, y) <==> ColumnLooks(text, col, x, y)
  {
    var x1 := LeftEdge(text) + 20 * col;
    PictureInColumn(text, col, x, y);
    GlyphLooks(text[col], x1, 1, x1 + 20, HEIGHT, x, y);
  }

  predicate InColumn(text: string, col: int, x: int) {
    LeftEdge(text) + 20 * col <= x < LeftEdge(text) + 20 * col + 20
  }

  predicate ColumnLooks(text: string, col: int, x: int, y: int)
    requires 0 <= col < |text|
  {
    var x1 := LeftEdge(text) + 20 * col;
    Looks(text[col], x1, 1, x1 + 20, HEIGHT, x, y)
  }

  lemma PictureAgrees(text: string, col: nat)
    requires col < |text|
    ensures var x1 := LeftEdge(text) + 20 * col;
      Agree(Picture(text), Glyph(text[col], x1, 1, x1 + 20, HEIGHT), x1)
  {
    var x1 := LeftEdge(text) + 20 * col;
    forall x, y | x1 <= x < x1 + 20
      ensures Picture(text)(x, y) == Glyph(text[col], x1, 1, x1 + 20, HEIGHT)(x, y)
    {
      PictureInColumn(text, col, x, y);
    }
  }

  lemma PictureLooks(text: string, col: nat)
    requires col < |text|
    ensures var x1 := LeftEdge(text) + 20 * col;
      Look(Picture(text), x1, 1, x1 + 20, HEIGHT) ==
      Look(Glyph(text[col], x1, 1, x1 + 20, HEIGHT), x1, 1, x1 + 20, HEIGHT)
  {
    var x1 := LeftEdge(text) + 20 * col;
    PictureAgrees(text, col);
    LookInside(Picture(text), Glyph(text[col], x1, 1, x1 + 20, HEIGHT), x1);
  }

  lemma PictureTells(text: string, col: nat)
    requires IsTime(text) && col < |text|
    ensures Tells(Picture(text), text, col)
  {
    var x1 := LeftEdge(text) + 20 * col;
    PictureLooks(text, col);
    ShowsSegments(text[col], x1, 1, x1 + 20, HEIGHT);
  }

  lemma SameColumn(f: (int, int) -> bool, g: (int, int) -> bool, t: string, u: string, col: nat)
    requires IsTime(t) && IsTime(u) && col < |t| == |u| && LeftEdge(t) == LeftEdge(u)
    requires Tells(f, t, col) && Tells(g, u, col)
    requires forall x, y :: OnScreen(x, y) ==> f(x, y) == g(x, y)
    ensures t[col] == u[col]
  {
    var x1 := LeftEdge(t) + 20 * col;
    assert 0 <= x1 <= WIDTH - 20;
    assert Look(f, x1, 1, x1 + 20, HEIGHT) == Look(g, x1, 1, x1 + 20, HEIGHT);
    DisplayInjective(t[col], u[col]);
  }

  /** A character that is not a one lights a pixel 13 columns into its cell. */
  lemma LightsThirteenth(num: char, x1: int)
    requires 15 <= x1 <= WIDTH - 20 && '0' <= num <= ':' && num != '1'
    ensures After(Strokes(num, x1, 1, x1 + 20, HEIGHT), x1 + 13, if num == ':' then 5 else 0, false)
  {
    var s, y := Strokes(num, x1, 1, x1 + 20, HEIGHT), if num == ':' then 5 else 0;
    UnfoldThree(s, x1 + 13, y);
  }

  /** No character lights the first column of its cell. */
  lemma FirstColumnDark(text: string, x: int, y: int)
    requires |text| <= 5 && x == LeftEdge(text) + 20
    ensures !Picture(text)(x, y)
  {
    if |text| > 1 {
      var x1 := LeftEdge(text) + 20;
      assert (x - LeftEdge(text)) / 20 == 1;
      StrokesInside(text[1], x1, 1, x1 + 20, HEIGHT);
      AfterOutside(Strokes(text[1], x1, 1, x1 + 20, HEIGHT), x1, 1, x1 + 20, HEIGHT, x, y, false);
    }
  }

  /** A time that starts with a one does not look like one that does not, although it is set further left. */
  lemma LeadingOneShows(t: string, u: string)
    requires IsTime(t) && IsTime(u) && |t| == |u| && t != [] && t[0] == '1' && u[0] != '1'
    ensures exists x, y :: OnScreen(x, y) && Picture(t)(x, y) != Picture(u)(x, y)
  {
    var x1 := LeftEdge(u);
    var x, y := x1 + 13, if u[0] == ':' then 5 else 0;
    assert x == LeftEdge(t) + 20;
    FirstColumnDark(t, x, y);
    LightsThirteenth(u[0], x1);
    assert (x - LeftEdge(u)) / 20 == 0;
    assert OnScreen(x, y) && Picture(t)(x, y) != Picture(u)(x, y);
  }

  /** The face can be read back: two times of the same length that light the same pixels are the same. */
  lemma FaceReadable(t: string, u: string)
    requires IsTime(t) && IsTime(u) && |t| == |u|
    requires forall x, y :: OnScreen(x, y) ==> Picture(t)(x, y) == Picture(u)(x, y)
    ensures t == u
  {
    if t != [] && t[0] == '1' && u[0] != '1' { LeadingOneShows(t, u); }
    if t != [] && t[0] != '1' && u[0] == '1' { LeadingOneShows(u, t); }
    forall col | 0 <= col < |t| ensures t[col] == u[col] {
      PictureTells(t, col);
      PictureTells(u, col);
      SameColumn(Picture(t), Picture(u), t, u, col);
    }
  }
}
