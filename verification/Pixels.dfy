/**
The packed frame buffer: eight pixels a byte, most significant bit first, 160 pixels a row. It refines
a map from coordinates to on/off.
*/
module Pixels {
  const WIDTH: nat := 160
  const HEIGHT: nat := 43
  const BUFSIZE: nat := 1048

  /** 1 << (7 - b): the bit for the b-th pixel of a byte. */
  function Mask(b: nat): bv8
    requires b < 8
    decreases 7 - b
  {
    if b == 7 then 1 else Mask(b + 1) << 1
  }

  lemma MaskTable(b: nat)
    requires b < 8
    ensures Mask(b) == if b == 0 then 0x80 else if b == 1 then 0x40 else if b == 2 then 0x20 else if b == 3 then 0x10
      else if b == 4 then 0x08 else if b == 5 then 0x04 else if b == 6 then 0x02 else 0x01
    decreases 7 - b
  {
    if b < 7 { MaskTable(b + 1); }
  }

  predicate Bit(v: bv8, b: nat)
    requires b < 8
  {
    v & Mask(b) != 0
  }

  lemma SetBit(v: bv8, b: nat, c: nat)
    requires b < 8 && c < 8
    ensures Bit(v | Mask(b), c) == (c == b || Bit(v, c))
  {
    MaskTable(b);
    MaskTable(c);
  }

  lemma ClearBit(v: bv8, b: nat, c: nat)
    requires b < 8 && c < 8
    ensures Bit(v & !Mask(b), c) == (c != b && Bit(v, c))
  {
    MaskTable(b);
    MaskTable(c);
  }

  /** Pixel number `k` of the buffer. */
  predicate Pixel(s: seq<bv8>, k: int) {
    0 <= k && k / 8 < |s| && Bit(s[k / 8], k % 8)
  }

  predicate OnScreen(x: int, y: int) {
    0 <= x < WIDTH && 0 <= y < HEIGHT
  }

  predicate Lit(s: seq<bv8>, x: int, y: int) {
    Pixel(s, WIDTH * y + x)
  }

  /** Different coordinates are different pixels. */
  lemma OffsetInjective(x: int, y: int, x': int, y': int)
    requires OnScreen(x, y) && OnScreen(x', y')
    ensures WIDTH * y + x == WIDTH * y' + x' <==> x == x' && y == y'
  {}

  /** A byte with one bit switched on or off. */
  function WithBit(v: bv8, b: nat, on: bool): bv8
    requires b < 8
  {
    if on then v | Mask(b) else v & !Mask(b)
  }

  lemma WithBitAt(v: bv8, b: nat, on: bool, c: nat)
    requires b < 8 && c < 8
    ensures Bit(WithBit(v, b, on), c) == if c == b then on else Bit(v, c)
  {
    SetBit(v, b, c);
    ClearBit(v, b, c);
  }

  lemma SamePlace(k: nat, j: nat)
    ensures j == k <==> j / 8 == k / 8 && j % 8 == k % 8
  {}

  /** Writing one bit of one byte changes exactly one pixel. */
  lemma OnePixel(s: seq<bv8>, k: nat, v: bv8, on: bool, j: nat)
    requires k / 8 < |s| && v == WithBit(s[k / 8], k % 8, on)
    ensures Pixel(s[k / 8 := v], j) == if j == k then on else Pixel(s, j)
  {
    SamePlace(k, j);
    var i, b, c := k / 8, k % 8, j % 8;
    if j / 8 == i {
      WithBitAt(s[i], b, on, c);
      assert Pixel(s[i := v], j) == Bit(v, c);
    }
  }

  method SetPixel(buf: array<bv8>, x: nat, y: nat, val: nat)
    requires buf.Length == BUFSIZE && OnScreen(x, y)
    modifies buf
    ensures Painted(old(buf[..]), buf[..], (px, py) => px == x && py == y, val != 0)
  {
    var pixelOffset := y * WIDTH + x;
    var byteOffset := pixelOffset / 8;
    var bit := pixelOffset % 8;
    ghost var before := buf[..];
    buf[byteOffset] := WithBit(buf[byteOffset], bit, val != 0);
    assert buf[..] == before[byteOffset := WithBit(before[byteOffset], bit, val != 0)];
    PaintOne(before, buf[..], pixelOffset, val != 0, x, y);
  }

  lemma PaintOneAt(a: seq<bv8>, b: seq<bv8>, k: nat, on: bool, x: nat, y: nat, px: int, py: int)
    requires OnScreen(x, y) && OnScreen(px, py) && k == y * WIDTH + x && k / 8 < |a|
    requires b == a[k / 8 := WithBit(a[k / 8], k % 8, on)]
    ensures Lit(b, px, py) == if px == x && py == y then on else Lit(a, px, py)
  {
    OffsetInjective(px, py, x, y);
    OnePixel(a, k, WithBit(a[k / 8], k % 8, on), on, WIDTH * py + px);
  }

  lemma PaintOne(a: seq<bv8>, b: seq<bv8>, k: nat, on: bool, x: nat, y: nat)
    requires |a| == BUFSIZE && OnScreen(x, y) && k == y * WIDTH + x
    requires b == a[k / 8 := WithBit(a[k / 8], k % 8, on)]
    ensures Painted(a, b, (px, py) => px == x && py == y, on)
  {
    assert k / 8 < WIDTH * HEIGHT / 8;
    forall px, py | OnScreen(px, py)
      ensures Lit(b, px, py) == if px == x && py == y then on else Lit(a, px, py)
    {
      PaintOneAt(a, b, k, on, x, y, px, py);
    }
  }

  /** From `a` to `b`, the pixels of the region were set to `on`; no other pixel and no byte behind
      the screen changed. */
  ghost predicate Painted(a: seq<bv8>, b: seq<bv8>, region: (int, int) -> bool, on: bool) {
    && |a| == |b| == BUFSIZE
    && (forall x, y :: OnScreen(x, y) ==> Lit(b, x, y) == if region(x, y) then on else Lit(a, x, y))
    && forall i :: WIDTH * HEIGHT / 8 <= i < BUFSIZE ==> b[i] == a[i]
  }

  /** A byte is its eight bits. */
  lemma ByteExt(v: bv8, w: bv8)
    requires forall b :: 0 <= b < 8 ==> Bit(v, b) == Bit(w, b)
    ensures v == w
  {
    MaskTable(0); MaskTable(1); MaskTable(2); MaskTable(3); MaskTable(4); MaskTable(5); MaskTable(6); MaskTable(7);
    assert Bit(v, 0) == Bit(w, 0) && Bit(v, 1) == Bit(w, 1) && Bit(v, 2) == Bit(w, 2) && Bit(v, 3) == Bit(w, 3);
    assert Bit(v, 4) == Bit(w, 4) && Bit(v, 5) == Bit(w, 5) && Bit(v, 6) == Bit(w, 6) && Bit(v, 7) == Bit(w, 7);
  }

  /** A painting is determined: the packed buffer is a faithful picture of the pixel map. */
  lemma PaintedUnique(a: seq<bv8>, b: seq<bv8>, c: seq<bv8>, region: (int, int) -> bool, on: bool)
    requires Painted(a, b, region, on) && Painted(a, c, region, on)
    ensures b == c
  {
    SamePixels(b, c);
  }

  lemma SamePixels(b: seq<bv8>, c: seq<bv8>)
    requires |b| == |c| == BUFSIZE
    requires forall x, y :: OnScreen(x, y) ==> Lit(b, x, y) == Lit(c, x, y)
    requires forall i :: WIDTH * HEIGHT / 8 <= i < BUFSIZE ==> b[i] == c[i]
    ensures b == c
  {
    forall i | 0 <= i < BUFSIZE ensures b[i] == c[i] {
      if i < WIDTH * HEIGHT / 8 {
        forall j | 0 <= j < 8 ensures Bit(b[i], j) == Bit(c[i], j) {
          var k := 8 * i + j;
          assert OnScreen(k % WIDTH, k / WIDTH) && WIDTH * (k / WIDTH) + k % WIDTH == k;
          assert Lit(b, k % WIDTH, k / WIDTH) == Lit(c, k % WIDTH, k / WIDTH);
          assert k / 8 == i && k % 8 == j;
        }
        ByteExt(b[i], c[i]);
      }
    }
  }

  // ---------- unpacked images ----------

  /** Packs an image of one byte a pixel. */
  method ConvertBuf(buf: array<bv8>, image: seq<bv8>)
    requires buf.Length == BUFSIZE && |image| == WIDTH * HEIGHT
    modifies buf
    ensures forall x, y :: OnScreen(x, y) ==> Lit(buf[..], x, y) == (image[x + y * WIDTH] != 0)
    ensures forall i :: WIDTH * HEIGHT / 8 <= i < BUFSIZE ==> buf[i] == old(buf[i])
  {
    ghost var start := buf[..];
    var x := 0;
    while x < WIDTH
      invariant x <= WIDTH
      invariant forall px, py :: OnScreen(px, py) && px < x ==> Lit(buf[..], px, py) == (image[px + py * WIDTH] != 0)
      invariant forall i :: WIDTH * HEIGHT / 8 <= i < BUFSIZE ==> buf[..][i] == start[i]
    {
      var y := 0;
      while y < HEIGHT
        invariant y <= HEIGHT
        invariant forall px, py :: OnScreen(px, py) && (px < x || (px == x && py < y)) ==>
          Lit(buf[..], px, py) == (image[px + py * WIDTH] != 0)
        invariant forall i :: WIDTH * HEIGHT / 8 <= i < BUFSIZE ==> buf[..][i] == start[i]
      {
        var val := image[x + y * WIDTH];
        SetPixel(buf, x, y, if val != 0 then 1 else 0);
        y := y + 1;
      }
      x := x + 1;
    }
  }

  /** The first `k` pixels of an image packed, the others off. */
  function PackedFrom(image: seq<bv8>, k: nat): (s: seq<bv8>)
    requires |image| == WIDTH * HEIGHT && k <= |image|
    ensures |s| == BUFSIZE
  {
    if k == 0 then seq(BUFSIZE, _ => 0)
    else
      var s, i := PackedFrom(image, k - 1), (k - 1) / 8;
      s[i := WithBit(s[i], (k - 1) % 8, image[k - 1] != 0)]
  }

  lemma {:induction false} PackedPixels(image: seq<bv8>, k: nat)
    requires |image| == WIDTH * HEIGHT && k <= |image|
    ensures forall j :: 0 <= j < k ==> Pixel(PackedFrom(image, k), j) == (image[j] != 0)
  {
    if k > 0 {
      var s := PackedFrom(image, k - 1);
      PackedPixels(image, k - 1);
      forall j | 0 <= j < k ensures Pixel(PackedFrom(image, k), j) == (image[j] != 0) {
        OnePixel(s, k - 1, WithBit(s[(k - 1) / 8], (k - 1) % 8, image[k - 1] != 0), image[k - 1] != 0, j);
      }
    }
  }
}
