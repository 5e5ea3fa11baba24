/**
Clients that go on after a send was cut short: exactly which cuts still leave the server showing the
frames that were sent whole, and no others.
*/
module Misaligned {
  import opened Sequences
  import opened Transfer
  import opened Sockets
  import opened Framing
  import opened Pixels
  import Wbmp

  // ---------- cut frames ----------

  function Total(cuts: seq<nat>): nat {
    if cuts == [] then 0 else cuts[0] + Total(cuts[1..])
  }

  /** The cuts are cuts of frames of this size. */
  predicate Cutting(cuts: seq<nat>, size: nat) {
    forall i :: 0 <= i < |cuts| ==> cuts[i] <= size
  }

  predicate NoneWhole(cuts: seq<nat>, size: nat) {
    forall i :: 0 <= i < |cuts| ==> cuts[i] < size
  }

  /** The frames that were sent whole, in order. */
  function Wholes(frames: seq<seq<byte>>, cuts: seq<nat>, size: nat): seq<seq<byte>>
    requires |cuts| == |frames|
  {
    if frames == [] then []
    else (if cuts[0] == size then [frames[0]] else []) + Wholes(frames[1..], cuts[1..], size)
  }

  /** The server takes `d` bytes off the front. Whole frames come through as long as they begin where the
      server expects a screen; once one does not, fewer bytes than make a screen may follow, and no whole
      frame. */
  predicate Carried(cuts: seq<nat>, d: nat, size: nat)
    decreases |cuts|
  {
    if cuts == [] then true
    else if d == 0 && cuts[0] == size then Carried(cuts[1..], 0, size)
    else if cuts[0] <= d then Carried(cuts[1..], d - cuts[0], size)
    else Total(cuts) < d + size && NoneWhole(cuts, size)
  }

  function Drop(s: seq<byte>, d: nat): seq<byte> {
    if |s| <= d then [] else s[d..]
  }

  predicate Frames(frames: seq<seq<byte>>, k: nat, size: nat) {
    |frames| == k && Whole(frames, size)
  }

  lemma FramesFit(frames: seq<seq<byte>>, cuts: seq<nat>, size: nat)
    requires Cutting(cuts, size) && Frames(frames, |cuts|, size)
    ensures Fitting(frames, cuts)
  {}

  /** What the server makes of the parts of some frames behind the first `d` bytes. */
  function Seen(frames: seq<seq<byte>>, cuts: seq<nat>, d: nat, size: nat): seq<seq<byte>>
    requires size > 0 && Fitting(frames, cuts)
  {
    Chunks(Drop(Parts(frames, cuts), d), size)
  }

  lemma {:induction false} PartsLength(frames: seq<seq<byte>>, cuts: seq<nat>)
    requires Fitting(frames, cuts)
    ensures |Parts(frames, cuts)| == Total(cuts)
  {
    if frames != [] { PartsLength(frames[1..], cuts[1..]); }
  }

  lemma {:induction false} NoWholes(frames: seq<seq<byte>>, cuts: seq<nat>, size: nat)
    requires |cuts| == |frames| && Cutting(cuts, size)
    ensures Wholes(frames, cuts, size) == [] <==> NoneWhole(cuts, size)
  {
    if frames != [] {
      NoWholes(frames[1..], cuts[1..], size);
      assert forall i :: 0 < i < |cuts| ==> cuts[i] == cuts[1..][i - 1];
    }
  }

  lemma DropFront(a: seq<byte>, b: seq<byte>, d: nat)
    requires |a| <= d
    ensures Drop(a + b, d) == Drop(b, d - |a|)
  {}

  lemma ChunksWhole(a: seq<byte>, b: seq<byte>, size: nat)
    requires |a| == size > 0
    ensures Chunks(Drop(a + b, 0), size) == [a] + Chunks(Drop(b, 0), size)
  {
    assert (a + b)[..size] == a && (a + b)[size..] == b;
    assert (a + b)[0..] == a + b && b[0..] == b;
  }

  /** A first frame that is whole, and expected. */
  lemma SeenWhole(frames: seq<seq<byte>>, cuts: seq<nat>, size: nat)
    requires size > 0 && cuts != [] && cuts[0] == size && Frames(frames, |cuts|, size)
    requires Fitting(frames, cuts) && Fitting(frames[1..], cuts[1..])
    ensures Seen(frames, cuts, 0, size) == [frames[0]] + Seen(frames[1..], cuts[1..], 0, size)
  {
    var a := frames[0][..cuts[0]];
    assert a == frames[0];
    ChunksWhole(a, Parts(frames[1..], cuts[1..]), size);
  }

  /** A first frame of which the server takes everything off. */
  lemma SeenGone(frames: seq<seq<byte>>, cuts: seq<nat>, d: nat, size: nat)
    requires size > 0 && cuts != [] && cuts[0] <= d && Frames(frames, |cuts|, size)
    requires Fitting(frames, cuts) && Fitting(frames[1..], cuts[1..])
    ensures Seen(frames, cuts, d, size) == Seen(frames[1..], cuts[1..], d - cuts[0], size)
  {
    DropFront(frames[0][..cuts[0]], Parts(frames[1..], cuts[1..]), d);
  }

  lemma Rest(frames: seq<seq<byte>>, cuts: seq<nat>, size: nat)
    requires Cutting(cuts, size) && Frames(frames, |cuts|, size) && cuts != []
    ensures Cutting(cuts[1..], size) && Frames(frames[1..], |cuts[1..]|, size)
    ensures Fitting(frames, cuts) && Fitting(frames[1..], cuts[1..])
  {}

  /** If they are carried, exactly the whole frames are seen, whatever they contain. */
  lemma {:induction false} CarriedAreSeen(frames: seq<seq<byte>>, cuts: seq<nat>, d: nat, size: nat)
    requires d < size && Cutting(cuts, size) && Frames(frames, |cuts|, size) && Fitting(frames, cuts)
    requires Carried(cuts, d, size)
    ensures Seen(frames, cuts, d, size) == Wholes(frames, cuts, size)
    decreases |cuts|
  {
    if cuts != [] {
      Rest(frames, cuts, size);
      if d == 0 && cuts[0] == size {
        SeenWhole(frames, cuts, size);
        CarriedAreSeen(frames[1..], cuts[1..], 0, size);
      } else if cuts[0] <= d {
        SeenGone(frames, cuts, d, size);
        CarriedAreSeen(frames[1..], cuts[1..], d - cuts[0], size);
      } else {
        PartsLength(frames, cuts);
        NoWholes(frames, cuts, size);
      }
    }
  }

  // ---------- frames that tell ----------

  function Uniform(v: byte, size: nat): (f: seq<byte>)
    ensures |f| == size && forall i :: 0 <= i < size ==> f[i] == v
  {
    seq(size, _ => v)
  }

  /** `k` frames of a single value. */
  function Copies(v: byte, k: nat, size: nat): (frames: seq<seq<byte>>)
    ensures Frames(frames, k, size)
    ensures forall i :: 0 <= i < k ==> frames[i] == Uniform(v, size)
  {
    seq(k, _ => Uniform(v, size))
  }

  lemma {:induction false} PartsOfCopies(v: byte, cuts: seq<nat>, size: nat)
    requires Cutting(cuts, size)
    ensures Fitting(Copies(v, |cuts|, size), cuts)
    ensures forall i :: 0 <= i < |Parts(Copies(v, |cuts|, size), cuts)| ==> Parts(Copies(v, |cuts|, size), cuts)[i] == v
  {
    var frames := Copies(v, |cuts|, size);
    FramesFit(frames, cuts, size);
    if cuts != [] {
      assert frames[1..] == Copies(v, |cuts| - 1, size);
      PartsOfCopies(v, cuts[1..], size);
    }
  }

  /** The frames have the same bytes other than zero in the same places. */
  predicate Alike(a: seq<seq<byte>>, b: seq<seq<byte>>) {
    |a| == |b| && forall i :: 0 <= i < |a| ==> SameDots(a[i], b[i])
  }

  predicate SameDots(f: seq<byte>, g: seq<byte>) {
    |f| == |g| && forall j :: 0 <= j < |f| ==> (f[j] != 0 <==> g[j] != 0)
  }

  lemma AlikeTail(x: seq<byte>, a: seq<seq<byte>>, b: seq<seq<byte>>)
    requires Alike([x] + a, [x] + b)
    ensures Alike(a, b)
  {
    forall i | 0 <= i < |a| ensures SameDots(a[i], b[i]) {
      assert SameDots(([x] + a)[i + 1], ([x] + b)[i + 1]);
    }
  }

  /** Ones up to the first frame that is neither whole where expected nor gone, then zeros. */
  function Telling(cuts: seq<nat>, d: nat, size: nat): (frames: seq<seq<byte>>)
    ensures Frames(frames, |cuts|, size)
    decreases |cuts|
  {
    if cuts == [] then []
    else
      [Uniform(1, size)] +
      if d == 0 && cuts[0] == size then Telling(cuts[1..], 0, size)
      else if cuts[0] <= d then Telling(cuts[1..], d - cuts[0], size)
      else Copies(0, |cuts| - 1, size)
  }

  /** If they are not carried, there are frames of which the server sees others than the whole ones, and
      frames that do not even look like them. */
  lemma {:induction false} OthersTell(cuts: seq<nat>, d: nat, size: nat)
    requires d < size && Cutting(cuts, size) && !Carried(cuts, d, size)
    ensures var frames := Telling(cuts, d, size);
      Fitting(frames, cuts) && !Alike(Seen(frames, cuts, d, size), Wholes(frames, cuts, size))
    decreases |cuts|
  {
    var frames := Telling(cuts, d, size);
    Rest(frames, cuts, size);
    if d == 0 && cuts[0] == size {
      OthersTell(cuts[1..], 0, size);
      SeenWhole(frames, cuts, size);
      assert frames[1..] == Telling(cuts[1..], 0, size);
      var seen, wholes := Seen(frames[1..], cuts[1..], 0, size), Wholes(frames[1..], cuts[1..], size);
      if Alike([frames[0]] + seen, [frames[0]] + wholes) { AlikeTail(frames[0], seen, wholes); }
    } else if cuts[0] <= d {
      OthersTell(cuts[1..], d - cuts[0], size);
      SeenGone(frames, cuts, d, size);
      assert frames[1..] == Telling(cuts[1..], d - cuts[0], size);
    } else {
      OnesThenZeros(cuts, d, size);
    }
  }

  /** A screen that begins with a one and ends with a zero. */
  lemma FirstScreenMixed(a: seq<byte>, b: seq<byte>, d: nat, size: nat)
    requires d < |a| < d + size <= |a + b|
    requires (forall i :: 0 <= i < |a| ==> a[i] == 1) && (forall i :: 0 <= i < |b| ==> b[i] == 0)
    ensures var seen := Chunks(Drop(a + b, d), size);
      seen != [] && |seen[0]| == size && seen[0][0] == 1 && seen[0][size - 1] == 0
  {
    var s := (a + b)[d..];
    assert s[..size][0] == (a + b)[d] == a[d];
    assert s[..size][size - 1] == (a + b)[d + size - 1] == b[d + size - 1 - |a|];
  }

  predicate EvenEnds(f: seq<byte>, size: nat)
    requires size > 0
  {
    |f| == size && f[0] == f[size - 1]
  }

  lemma OnesThenZeros(cuts: seq<nat>, d: nat, size: nat)
    requires d < size && Cutting(cuts, size) && cuts != [] && cuts[0] > d && !(d == 0 && cuts[0] == size)
    requires !(Total(cuts) < d + size && NoneWhole(cuts, size))
    ensures var frames := [Uniform(1, size)] + Copies(0, |cuts| - 1, size);
      Fitting(frames, cuts) && !Alike(Seen(frames, cuts, d, size), Wholes(frames, cuts, size))
  {
    var frames := [Uniform(1, size)] + Copies(0, |cuts| - 1, size);
    Rest(frames, cuts, size);
    PartsLength(frames, cuts);
    NoWholes(frames, cuts, size);
    if Total(cuts) >= d + size {
      assert frames[1..] == Copies(0, |cuts| - 1, size);
      PartsOfCopies(0, cuts[1..], size);
      FirstScreenMixed(frames[0][..cuts[0]], Parts(frames[1..], cuts[1..]), d, size);
      assert forall f :: f in frames ==> EvenEnds(f, size);
      WholesAreFrames(frames, cuts, size);
      MixedIsNone(Seen(frames, cuts, d, size), Wholes(frames, cuts, size), size);
    }
  }

  lemma MixedIsNone(seen: seq<seq<byte>>, wholes: seq<seq<byte>>, size: nat)
    requires size > 0 && seen != [] && |seen[0]| == size && seen[0][0] != 0 && seen[0][size - 1] == 0
    requires forall f :: f in wholes ==> EvenEnds(f, size)
    ensures !Alike(seen, wholes)
  {
    assert |wholes| > 0 ==> wholes[0] in wholes && !SameDots(seen[0], wholes[0]);
  }

  lemma {:induction false} WholesAreFrames(frames: seq<seq<byte>>, cuts: seq<nat>, size: nat)
    requires |cuts| == |frames|
    ensures forall w :: w in Wholes(frames, cuts, size) ==> w in frames
  {
    if frames != [] { WholesAreFrames(frames[1..], cuts[1..], size); }
  }

  /** A client whose frames may each be cut short, and which goes on all the same: for all contents the
      server sees exactly the frames sent whole, in order, if and only if the cuts carry them. */
  lemma SeenIff(cuts: seq<nat>, d: nat, size: nat)
    requires d < size && Cutting(cuts, size)
    ensures Carried(cuts, d, size) <==>
      forall frames: seq<seq<byte>> :: Frames(frames, |cuts|, size) && Fitting(frames, cuts) ==>
        Seen(frames, cuts, d, size) == Wholes(frames, cuts, size)
  {
    if Carried(cuts, d, size) {
      forall frames: seq<seq<byte>> | Frames(frames, |cuts|, size) && Fitting(frames, cuts)
        ensures Seen(frames, cuts, d, size) == Wholes(frames, cuts, size)
      {
        CarriedAreSeen(frames, cuts, d, size);
      }
    } else {
      OthersTell(cuts, d, size);
      var frames := Telling(cuts, d, size);
      assert Frames(frames, |cuts|, size) && Fitting(frames, cuts);
    }
  }

  // ---------- behind a whole tag ----------

  /** The first cut that is neither whole nor empty, or the end. */
  function FirstPartial(cuts: seq<nat>, size: nat): (i: nat)
    ensures i <= |cuts|
    ensures i < |cuts| ==> cuts[i] != size && cuts[i] != 0
    ensures forall j :: 0 <= j < i ==> cuts[j] == size || cuts[j] == 0
  {
    if cuts == [] || (cuts[0] != size && cuts[0] != 0) then 0 else 1 + FirstPartial(cuts[1..], size)
  }

  /** Behind a whole tag: from the first frame that is cut short on, less than a screen may follow. */
  lemma {:induction false} CarriedFromStart(cuts: seq<nat>, size: nat)
    requires size > 0 && Cutting(cuts, size)
    ensures Carried(cuts, 0, size) <==> Total(cuts[FirstPartial(cuts, size)..]) < size
  {
    if cuts != [] {
      if cuts[0] == size || cuts[0] == 0 {
        CarriedFromStart(cuts[1..], size);
        assert cuts[FirstPartial(cuts, size)..] == cuts[1..][FirstPartial(cuts[1..], size)..];
      } else {
        assert cuts[0..] == cuts;
        if Total(cuts) < size { SmallTotal(cuts, size); }
      }
    }
  }

  lemma {:induction false} SmallTotal(cuts: seq<nat>, size: nat)
    requires Total(cuts) < size
    ensures NoneWhole(cuts, size)
  {
    if cuts != [] {
      SmallTotal(cuts[1..], size);
      assert forall i :: 0 < i < |cuts| ==> cuts[i] == cuts[1..][i - 1];
    }
  }

  // ---------- the two kinds of screens ----------

  /** Packed screens, or images at one byte a pixel. */
  type Kind = m: Mode | m.Packed? || m.Unpacked? witness Packed

  function SizeOf(kind: Kind): (size: nat)
    ensures ScreenSize(size) && size > TAG
  {
    if kind.Packed? then FRAME else IMAGE
  }

  function KindTag(kind: Kind): (tag: seq<byte>)
    ensures |tag| == TAG && ModeOf(tag) == kind
  {
    TagOf(if kind.Packed? then RenderScreen else PixelScreen)
  }

  /** These screens are, or show, these frames. */
  ghost predicate Show(kind: Kind, screens: seq<seq<byte>>, frames: seq<seq<byte>>) {
    if kind.Packed? then screens == frames else AllShow(screens, frames)
  }

  /** A screen that shows an image. */
  function Portrait(image: seq<byte>): (screen: seq<byte>)
    requires |image| == IMAGE
    ensures Shows(screen, image)
  {
    PackedShows(image);
    PackedFrom(image, IMAGE)
  }

  lemma PackedShows(image: seq<byte>)
    requires |image| == IMAGE
    ensures Shows(PackedFrom(image, IMAGE), image)
  {
    PackedPixels(image, IMAGE);
    forall x, y | OnScreen(x, y) ensures Lit(PackedFrom(image, IMAGE), x, y) == (image[x + y * WIDTH] != 0) {
      var k := WIDTH * y + x;
      assert k < IMAGE && Pixel(PackedFrom(image, IMAGE), k) == (image[k] != 0);
    }
  }

  function Gallery(kind: Kind, frames: seq<seq<byte>>): (screens: seq<seq<byte>>)
    requires Whole(frames, SizeOf(kind))
    ensures Show(kind, screens, frames)
  {
    if kind.Packed? then frames
    else seq(|frames|, i requires 0 <= i < |frames| => Portrait(frames[i]))
  }

  /** Screens that show two lists of images show the same dots. */
  lemma ShownAlike(kind: Kind, screens: seq<seq<byte>>, a: seq<seq<byte>>, b: seq<seq<byte>>)
    requires Show(kind, screens, a) && Show(kind, screens, b)
    ensures Alike(a, b)
  {
    if kind.Unpacked? {
      forall i | 0 <= i < |a| ensures SameDots(a[i], b[i]) {
        assert Shows(screens[i], a[i]) && Shows(screens[i], b[i]);
        SameScreen(screens[i], a[i], b[i]);
      }
    }
  }

  lemma SameScreen(screen: seq<byte>, f: seq<byte>, g: seq<byte>)
    requires Shows(screen, f) && Shows(screen, g)
    ensures SameDots(f, g)
  {
    forall j | 0 <= j < IMAGE ensures f[j] != 0 <==> g[j] != 0 {
      var x, y := j % WIDTH, j / WIDTH;
      assert OnScreen(x, y) && x + y * WIDTH == j;
      assert Lit(screen, x, y) == (f[x + y * WIDTH] != 0);
    }
  }

  // ---------- the tag ----------

  /** `q` bytes of the tag go out, and then the cuts. With some of the tag the server takes the missing part
      from the frames; with none of it the frames say what kind of screens to expect, and a single byte
      behind what is taken for the tag can put something on display. */
  predicate TagCarried(kind: Kind, q: nat, cuts: seq<nat>)
    requires q <= TAG
  {
    if q == 0 then Total(cuts) <= TAG else Carried(cuts, TAG - q, SizeOf(kind))
  }

  function Stream(kind: Kind, q: nat, frames: seq<seq<byte>>, cuts: seq<nat>): seq<byte>
    requires q <= TAG && Fitting(frames, cuts)
  {
    KindTag(kind)[..q] + Parts(frames, cuts)
  }

  /** Whatever is published of the stream, it is the whole frames. */
  ghost predicate ShowsWholes(kind: Kind, q: nat, frames: seq<seq<byte>>, cuts: seq<nat>)
    requires q <= TAG && Fitting(frames, cuts)
  {
    forall was, screens :: |was| == BUFSIZE && Publishes(Stream(kind, q, frames, cuts), was, screens) ==>
      Show(kind, screens, Wholes(frames, cuts, SizeOf(kind)))
  }

  /** Whatever the frames contain, exactly those sent whole are shown. */
  ghost predicate AlwaysShowsWholes(kind: Kind, q: nat, cuts: seq<nat>)
    requires q <= TAG
  {
    forall frames: seq<seq<byte>> :: Frames(frames, |cuts|, SizeOf(kind)) && Fitting(frames, cuts) ==>
      ShowsWholes(kind, q, frames, cuts)
  }

  /** With some of the tag, the server sees the screens behind the missing part. */
  lemma TaggedStream(kind: Kind, q: nat, frames: seq<seq<byte>>, cuts: seq<nat>, was: seq<byte>,
                     screens: seq<seq<byte>>)
    requires 0 < q <= TAG && Fitting(frames, cuts) && |was| == BUFSIZE
    ensures Publishes(Stream(kind, q, frames, cuts), was, screens) <==>
      Show(kind, screens, Seen(frames, cuts, TAG - q, SizeOf(kind)))
  {
    var s, p := Stream(kind, q, frames, cuts), Parts(frames, cuts);
    assert s[0] == KindTag(kind)[0];
    if |s| >= TAG {
      assert s[TAG..] == p[TAG - q..];
      assert ModeOf(s[..TAG]) == kind;
    }
    assert Drop(p, TAG - q) == if |s| <= TAG then [] else s[TAG..];
    assert Chunks([], SizeOf(kind)) == [];
  }

  lemma TaggedShows(kind: Kind, q: nat, frames: seq<seq<byte>>, cuts: seq<nat>)
    requires 0 < q <= TAG && Fitting(frames, cuts)
    ensures Seen(frames, cuts, TAG - q, SizeOf(kind)) == Wholes(frames, cuts, SizeOf(kind)) ==>
      ShowsWholes(kind, q, frames, cuts)
    ensures ShowsWholes(kind, q, frames, cuts) ==>
      Alike(Seen(frames, cuts, TAG - q, SizeOf(kind)), Wholes(frames, cuts, SizeOf(kind)))
  {
    var seen, wholes := Seen(frames, cuts, TAG - q, SizeOf(kind)), Wholes(frames, cuts, SizeOf(kind));
    forall was, screens | |was| == BUFSIZE
      ensures Publishes(Stream(kind, q, frames, cuts), was, screens) <==> Show(kind, screens, seen)
    {
      TaggedStream(kind, q, frames, cuts, was, screens);
    }
    var was, screens := Uniform(0, BUFSIZE), Gallery(kind, seen);
    if ShowsWholes(kind, q, frames, cuts) {
      assert Publishes(Stream(kind, q, frames, cuts), was, screens);
      ShownAlike(kind, screens, seen, wholes);
    }
  }

  lemma UntaggedLength(kind: Kind, frames: seq<seq<byte>>, cuts: seq<nat>)
    requires Fitting(frames, cuts)
    ensures Stream(kind, 0, frames, cuts) == Parts(frames, cuts) && |Stream(kind, 0, frames, cuts)| == Total(cuts)
  {
    PartsLength(frames, cuts);
    assert KindTag(kind)[..0] == [];
  }

  lemma NothingRead(pieces: seq<seq<byte>>)
    requires Wbmp.Pieces(pieces)
    ensures Flat(pieces) == [] <==> pieces == []
  {
    if pieces != [] { assert |pieces[0]| > 0; }
  }

  lemma TagAlone(s: seq<byte>, was: seq<byte>, screens: seq<seq<byte>>)
    requires |s| <= TAG && |was| == BUFSIZE && Publishes(s, was, screens)
    ensures screens == []
  {
    if |s| == TAG && ModeOf(s[..TAG]).Bitmap? {
      var pieces :| Wbmp.Pieces(pieces) && Flat(pieces) == s[TAG..] &&
        screens == Wbmp.Images(pieces, FirstRead(s[..TAG]), was);
      NothingRead(pieces);
    }
  }

  /** Without the tag: nothing behind what is taken for one. */
  lemma UntaggedShort(kind: Kind, frames: seq<seq<byte>>, cuts: seq<nat>)
    requires Cutting(cuts, SizeOf(kind)) && Fitting(frames, cuts) && Total(cuts) <= TAG
    ensures ShowsWholes(kind, 0, frames, cuts)
  {
    UntaggedLength(kind, frames, cuts);
    SmallTotal(cuts, SizeOf(kind));
    NoWholes(frames, cuts, SizeOf(kind));
    forall was, screens | |was| == BUFSIZE && Publishes(Stream(kind, 0, frames, cuts), was, screens)
      ensures screens == []
    {
      TagAlone(Stream(kind, 0, frames, cuts), was, screens);
    }
  }

  lemma NotTagged(s: seq<byte>, was: seq<byte>)
    requires |was| == BUFSIZE && (s != [] ==> s[0] == 0)
    ensures Publishes(s, was, [])
  {
    if |s| >= TAG { assert s[..TAG][0] == s[0]; }
  }

  /** Frames of zeros are taken for no tag at all. */
  lemma ZerosUnseen(kind: Kind, cuts: seq<nat>)
    requires Cutting(cuts, SizeOf(kind)) && !NoneWhole(cuts, SizeOf(kind))
    ensures var frames := Copies(0, |cuts|, SizeOf(kind));
      Fitting(frames, cuts) && !ShowsWholes(kind, 0, frames, cuts)
  {
    var frames := Copies(0, |cuts|, SizeOf(kind));
    PartsOfCopies(0, cuts, SizeOf(kind));
    UntaggedLength(kind, frames, cuts);
    NoWholes(frames, cuts, SizeOf(kind));
    NotTagged(Stream(kind, 0, frames, cuts), Uniform(0, BUFSIZE));
  }

  /** Frames whose parts make up a given text. */
  function Spelling(s: seq<byte>, cuts: seq<nat>, size: nat): (frames: seq<seq<byte>>)
    requires Cutting(cuts, size) && |s| == Total(cuts)
    ensures Frames(frames, |cuts|, size) && Fitting(frames, cuts)
    decreases |cuts|
  {
    if cuts == [] then []
    else [s[..cuts[0]] + Uniform(0, size - cuts[0])] + Spelling(s[cuts[0]..], cuts[1..], size)
  }

  lemma {:induction false} PartsSpell(s: seq<byte>, cuts: seq<nat>, size: nat)
    requires Cutting(cuts, size) && |s| == Total(cuts)
    ensures Parts(Spelling(s, cuts, size), cuts) == s
    decreases |cuts|
  {
    if cuts != [] {
      var head, rest := s[..cuts[0]], Spelling(s[cuts[0]..], cuts[1..], size);
      var frames := Spelling(s, cuts, size);
      PartsSpell(s[cuts[0]..], cuts[1..], size);
      assert frames == [head + Uniform(0, size - cuts[0])] + rest;
      FrontOf(head, Uniform(0, size - cuts[0]));
      assert frames[0][..cuts[0]] == head && frames[1..] == rest;
    }
  }

  lemma FrontOf<T>(a: seq<T>, b: seq<T>)
    ensures (a + b)[..|a|] == a
  {}

  /** A W, and wherever a header may be looked for a width of 160 pixels. */
  function Impostor(n: nat): (s: seq<byte>)
    requires n > TAG
    ensures |s| == n && s[0] == LETTER_W && s[2] == Wbmp.WIDE && (n > 6 ==> s[6] == Wbmp.WIDE)
  {
    seq(n, i => if i == 0 then LETTER_W else if i == 2 || i == 6 then Wbmp.WIDE else 0)
  }

  /** A stream in reads of up to `FILE` bytes. */
  function SomePieces(body: seq<byte>): (pieces: seq<seq<byte>>)
    ensures Wbmp.Pieces(pieces) && Flat(pieces) == body
    decreases |body|
  {
    if body == [] then []
    else
      var n := Min(|body|, Wbmp.FILE);
      assert body[..n] + body[n..] == body;
      [body[..n]] + SomePieces(body[n..])
  }

  /** Such a stream puts a screen on display. */
  lemma ImpostorShows(n: nat, was: seq<byte>)
    requires n > TAG && |was| == BUFSIZE
    ensures exists screens :: screens != [] && Publishes(Impostor(n), was, screens)
  {
    var s := Impostor(n);
    var tag, body := s[..TAG], s[TAG..];
    var pieces := SomePieces(body);
    assert tag[0] == LETTER_W && ModeOf(tag) == Bitmap;
    assert FirstRead(tag)[2] == Wbmp.WIDE;
    assert |pieces[0]| > 2 ==> pieces[0][2] == body[2] == s[6];
    Wbmp.AnyReadShows(pieces, FirstRead(tag), was);
    var screens := Wbmp.Images(pieces, FirstRead(tag), was);
    assert BitmapsShown(tag, was, body, screens);
    assert Publishes(s, was, screens);
  }

  /** And it does so on every server that reads anything behind the tag. */
  lemma ImpostorServed(n: nat, script: seq<Round>, was: seq<byte>)
    requires n > TAG && |was| == BUFSIZE && Move(RoundTurn, script, Wbmp.FILE, n - TAG, false).count > 0
    ensures var tag, body := Impostor(n)[..TAG], Impostor(n)[TAG..];
      Wbmp.Images(Wbmp.PiecesOf(script, body, FirstRead(tag)), FirstRead(tag), was) != []
  {
    var tag, body := Impostor(n)[..TAG], Impostor(n)[TAG..];
    assert |body| > 2 ==> body[2] == Impostor(n)[6];
    Wbmp.OneReadShows(script, body, FirstRead(tag), was);
  }

  lemma ImpostorSeen(kind: Kind, cuts: seq<nat>)
    requires Cutting(cuts, SizeOf(kind)) && NoneWhole(cuts, SizeOf(kind)) && Total(cuts) > TAG
    ensures var frames := Spelling(Impostor(Total(cuts)), cuts, SizeOf(kind));
      !ShowsWholes(kind, 0, frames, cuts)
  {
    var s := Impostor(Total(cuts));
    var frames := Spelling(s, cuts, SizeOf(kind));
    PartsSpell(s, cuts, SizeOf(kind));
    UntaggedLength(kind, frames, cuts);
    NoWholes(frames, cuts, SizeOf(kind));
    var was := Uniform(0, BUFSIZE);
    ImpostorShows(Total(cuts), was);
    var screens :| screens != [] && Publishes(s, was, screens);
    assert Publishes(Stream(kind, 0, frames, cuts), was, screens);
    assert !Show(kind, screens, []);
  }

  lemma UntaggedTells(kind: Kind, cuts: seq<nat>)
    requires Cutting(cuts, SizeOf(kind)) && Total(cuts) > TAG
    ensures !AlwaysShowsWholes(kind, 0, cuts)
  {
    if NoneWhole(cuts, SizeOf(kind)) {
      ImpostorSeen(kind, cuts);
      var frames := Spelling(Impostor(Total(cuts)), cuts, SizeOf(kind));
      assert Frames(frames, |cuts|, SizeOf(kind)) && Fitting(frames, cuts);
    } else {
      ZerosUnseen(kind, cuts);
      var frames := Copies(0, |cuts|, SizeOf(kind));
      assert Frames(frames, |cuts|, SizeOf(kind)) && Fitting(frames, cuts);
    }
  }

  lemma TaggedTells(kind: Kind, q: nat, cuts: seq<nat>)
    requires 0 < q <= TAG && Cutting(cuts, SizeOf(kind)) && !Carried(cuts, TAG - q, SizeOf(kind))
    ensures !AlwaysShowsWholes(kind, q, cuts)
  {
    var frames := Telling(cuts, TAG - q, SizeOf(kind));
    OthersTell(cuts, TAG - q, SizeOf(kind));
    TaggedShows(kind, q, frames, cuts);
    assert Frames(frames, |cuts|, SizeOf(kind)) && Fitting(frames, cuts);
  }

  lemma TaggedShown(kind: Kind, q: nat, cuts: seq<nat>)
    requires 0 < q <= TAG && Cutting(cuts, SizeOf(kind)) && Carried(cuts, TAG - q, SizeOf(kind))
    ensures AlwaysShowsWholes(kind, q, cuts)
  {
    forall frames: seq<seq<byte>> | Frames(frames, |cuts|, SizeOf(kind)) && Fitting(frames, cuts)
      ensures ShowsWholes(kind, q, frames, cuts)
    {
      CarriedAreSeen(frames, cuts, TAG - q, SizeOf(kind));
      TaggedShows(kind, q, frames, cuts);
    }
  }

  /** For all contents the server shows exactly the frames sent whole, in order, if and only if tag and cuts
      carry them. */
  lemma ShowsWholesIff(kind: Kind, q: nat, cuts: seq<nat>)
    requires q <= TAG && Cutting(cuts, SizeOf(kind))
    ensures TagCarried(kind, q, cuts) <==> AlwaysShowsWholes(kind, q, cuts)
  {
    if q > 0 {
      if TagCarried(kind, q, cuts) { TaggedShown(kind, q, cuts); } else { TaggedTells(kind, q, cuts); }
    } else if Total(cuts) > TAG {
      UntaggedTells(kind, cuts);
    } else {
      forall frames: seq<seq<byte>> | Frames(frames, |cuts|, SizeOf(kind)) && Fitting(frames, cuts)
        ensures ShowsWholes(kind, 0, frames, cuts)
      {
        UntaggedShort(kind, frames, cuts);
      }
    }
  }

  // ---------- the client ----------

  /** How a client's sends fare does not depend on what it sends. */
  lemma {:induction false} SameCuts(script: seq<SendRound>, a: seq<seq<byte>>, b: seq<seq<byte>>, persist: bool,
                                    size: nat)
    requires |a| == |b| && Whole(a, size) && Whole(b, size)
    ensures Cuts(script, a, persist) == Cuts(script, b, persist)
    decreases |a|
  {
    if a != [] {
      var o := Move(SendTurn, script, size, size, false);
      SameCuts(script[o.used..], a[1..], b[1..], persist, size);
    }
  }

  /** For every course that sending a tag and `k` frames can take, by a client that goes on after failures or
      by one that stops: the server shows exactly the frames sent whole, whatever they contain, if and only
      if tag and cuts carry them. */
  lemma ClientShownIff(kind: Kind, script: seq<SendRound>, k: nat, persist: bool)
    ensures
      var o := Move(SendTurn, script, TAG, TAG, false);
      var cuts := Cuts(script[o.used..], Copies(0, k, SizeOf(kind)), persist);
      TagCarried(kind, o.count, cuts) <==>
        forall frames: seq<seq<byte>> :: Frames(frames, k, SizeOf(kind)) ==>
          ShowsWholesOf(kind, SentBy(script, KindTag(kind), frames, persist), frames, cuts)
  {
    var o := Move(SendTurn, script, TAG, TAG, false);
    var cuts := Cuts(script[o.used..], Copies(0, k, SizeOf(kind)), persist);
    ShowsWholesIff(kind, o.count, cuts);
    forall frames: seq<seq<byte>> | Frames(frames, k, SizeOf(kind))
      ensures Fitting(frames, cuts)
      ensures ShowsWholesOf(kind, SentBy(script, KindTag(kind), frames, persist), frames, cuts) <==>
        ShowsWholes(kind, o.count, frames, cuts)
    {
      SameCuts(script[o.used..], frames, Copies(0, k, SizeOf(kind)), persist, SizeOf(kind));
      assert SentBy(script, KindTag(kind), frames, persist) == Stream(kind, o.count, frames, cuts);
    }
  }

  /** Whatever is published of what was sent, it is the whole frames. */
  ghost predicate ShowsWholesOf(kind: Kind, sent: seq<byte>, frames: seq<seq<byte>>, cuts: seq<nat>) {
    |frames| == |cuts| && forall was, screens :: |was| == BUFSIZE && Publishes(sent, was, screens) ==>
      Show(kind, screens, Wholes(frames, cuts, SizeOf(kind)))
  }

  lemma {:induction false} ZerosCarried(k: nat, size: nat)
    requires size > 0
    ensures Carried(Zeros(k), 0, size) && Total(Zeros(k)) == 0
  {
    if k > 0 {
      assert Zeros(k)[1..] == Zeros(k - 1);
      ZerosCarried(k - 1, size);
    }
  }

  lemma CutThenZeros(c: nat, k: nat, size: nat)
    requires c < size
    ensures Carried([c] + Zeros(k), 0, size)
  {
    ZerosCarried(k, size);
    assert ([c] + Zeros(k))[1..] == Zeros(k);
  }

  /** A client that stops at the first failure is safe, as long as its tag went out whole. */
  lemma {:induction false} StoppingIsCarried(script: seq<SendRound>, frames: seq<seq<byte>>, size: nat)
    requires size > 0 && Whole(frames, size)
    ensures Carried(Cuts(script, frames, false), 0, size)
    decreases |frames|
  {
    if frames != [] {
      var o := Move(SendTurn, script, size, size, false);
      if o.count == size {
        var rest := Cuts(script[o.used..], frames[1..], false);
        StoppingIsCarried(script[o.used..], frames[1..], size);
        assert Cuts(script, frames, false) == [size] + rest;
        CarriedBehindWhole(rest, size);
      } else {
        NothingBehind(script, frames);
        CutThenZeros(o.count, |frames| - 1, size);
      }
    }
  }

  lemma CarriedBehindWhole(rest: seq<nat>, size: nat)
    ensures Carried([size] + rest, 0, size) <==> Carried(rest, 0, size)
  {
    assert ([size] + rest)[1..] == rest;
  }

  /** Rounds under which a persistent client sends just these parts. */
  function Course(cuts: seq<nat>, size: nat): seq<SendRound> {
    if cuts == [] then []
    else [Accepts(cuts[0])] + (if cuts[0] < size then [Refused] else []) + Course(cuts[1..], size)
  }

  /** Every way of cutting frames can happen. */
  lemma {:induction false} EveryCutHappens(cuts: seq<nat>, frames: seq<seq<byte>>, size: nat)
    requires size > 0 && Cutting(cuts, size) && Frames(frames, |cuts|, size)
    ensures Cuts(Course(cuts, size), frames, true) == cuts
    decreases |cuts|
  {
    if cuts != [] {
      var script, rest := Course(cuts, size), Course(cuts[1..], size);
      EveryCutHappens(cuts[1..], frames[1..], size);
      OneCut(cuts[0], rest, size);
    }
  }

  lemma OneCut(c: nat, rest: seq<SendRound>, size: nat)
    requires c <= size && size > 0
    ensures var script := [Accepts(c)] + (if c < size then [Refused] else []) + rest;
      var o := Move(SendTurn, script, size, size, false);
      o.count == c && script[o.used..] == rest
  {
    var script := [Accepts(c)] + (if c < size then [Refused] else []) + rest;
    if c < size {
      assert script[1..] == [Refused] + rest;
      assert Move(SendTurn, script[1..], size - c, size - c, false) == Outcome(0, 1, true);
      assert script[2..] == rest;
    } else {
      assert script[1..] == rest;
    }
  }

  // ---------- particular courses ----------

  /** A frame that is cut short, with a whole one behind it. */
  lemma SendingOnMisaligns(kind: Kind, p: nat)
    requires p <= SizeOf(kind)
    ensures AlwaysShowsWholes(kind, TAG, [p, SizeOf(kind)]) <==> p == 0 || p == SizeOf(kind)
  {
    var size := SizeOf(kind);
    var cuts := [p, size];
    ShowsWholesIff(kind, TAG, cuts);
    assert cuts[1..] == [size] && [size][1..] == [];
    assert Total([size]) == size && Carried([size], 0, size);
    assert cuts[1] == size;
  }

  /** Two scraps make no screen. */
  lemma ScrapsAreHarmless(kind: Kind)
    ensures AlwaysShowsWholes(kind, TAG, [1, 1])
  {
    var cuts := [1, 1];
    ShowsWholesIff(kind, TAG, cuts);
    assert cuts[1..] == [1] && [1][1..] == [];
    assert Total([1]) == 1 && Total(cuts) == 2;
  }

  /** Five bytes of a frame behind a lost tag can put a screen on display. */
  lemma ScrapsBehindLostTag(kind: Kind)
    ensures !AlwaysShowsWholes(kind, 0, [5])
  {
    ShowsWholesIff(kind, 0, [5]);
    assert [5][1..] == [];
  }

  lemma {:induction false} WholesCarried(kind: Kind, q: nat, k: nat)
    requires q <= TAG
    ensures TagCarried(kind, q, seq(k, _ => SizeOf(kind))) <==> q == TAG || k == 0
  {
    var size := SizeOf(kind);
    var cuts := seq(k, _ => size);
    if k > 0 {
      assert cuts[0] == size;
      if q == TAG {
        assert cuts[1..] == seq(k - 1, _ => size);
        WholesCarried(kind, TAG, k - 1);
      }
    }
  }

  /** Whole frames behind a tag. */
  lemma LostTagMisaligns(kind: Kind, q: nat, k: nat)
    requires q <= TAG
    ensures AlwaysShowsWholes(kind, q, seq(k, _ => SizeOf(kind))) <==> q == TAG || k == 0
  {
    ShowsWholesIff(kind, q, seq(k, _ => SizeOf(kind)));
    WholesCarried(kind, q, k);
  }
}
