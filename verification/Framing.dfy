/**
Screen frames over a byte stream. Sends and receives may be cut anywhere, polls may time out, reads may
find nothing, and out-of-band commands may arrive in between: what the server publishes are the
frames the client sent, whole and in order.
*/
module Framing {
  import opened Sequences
  import opened Transfer
  import opened Pixels
  import opened Sockets
  import opened Display
  import Wbmp

  // ---------- frames ----------

  /** The whole frames at the start of a stream. */
  function Chunks(s: seq<byte>, size: nat): (c: seq<seq<byte>>)
    requires size > 0
    ensures forall i :: 0 <= i < |c| ==> |c[i]| == size
    decreases |s|
  {
    if |s| < size then [] else [s[..size]] + Chunks(s[size..], size)
  }

  predicate Whole(frames: seq<seq<byte>>, size: nat) {
    forall i :: 0 <= i < |frames| ==> |frames[i]| == size
  }

  predicate ScreenSize(size: nat) {
    size == FRAME || size == IMAGE
  }

  lemma DivStep(n: nat, size: nat)
    requires ScreenSize(size) && n >= size
    ensures n / size == (n - size) / size + 1 && n % size == (n - size) % size
  {}

  lemma DivZero(n: nat, size: nat)
    requires ScreenSize(size) && n < size
    ensures n / size == 0 && n % size == n
  {}

  /** Cutting a stream of frames after `n` bytes leaves exactly the frames that arrived whole. */
  lemma {:induction false} ChunksOfPrefix(frames: seq<seq<byte>>, size: nat, n: nat)
    requires ScreenSize(size) && Whole(frames, size) && n <= |Flat(frames)|
    ensures n / size <= |frames| && Chunks(Flat(frames)[..n], size) == frames[..n / size]
    decreases |frames|
  {
    if n < size {
      DivZero(n, size);
    } else {
      var s := Flat(frames)[..n];
      DivStep(n, size);
      PrefixSplit(frames[0], Flat(frames[1..]), n);
      ChunksOfPrefix(frames[1..], size, n - size);
      assert Chunks(s, size) == [frames[0]] + Chunks(s[size..], size);
      TakeCons(frames, n / size);
    }
  }

  lemma PrefixSplit(a: seq<byte>, b: seq<byte>, n: nat)
    requires |a| <= n <= |a| + |b|
    ensures (a + b)[..n][..|a|] == a && (a + b)[..n][|a|..] == b[..n - |a|]
  {}

  lemma TakeCons<T>(s: seq<T>, k: nat)
    requires 0 < k <= |s|
    ensures s[..k] == [s[0]] + s[1..][..k - 1]
  {}

  /** Reading on: one more whole frame, or the end. */
  lemma {:induction false} ChunksSnoc(s: seq<byte>, t: seq<byte>, size: nat)
    requires ScreenSize(size) && Even(s, size) && |t| <= size
    ensures Chunks(s + t, size) == Chunks(s, size) + (if |t| == size then [t] else [])
    ensures |t| == size ==> Even(s + t, size)
    decreases |s|
  {
    if |s| < size {
      DivZero(|s|, size);
      assert s + t == t;
      if |t| == size { assert t[..size] == t && t[size..] == []; }
    } else {
      DivStep(|s|, size);
      PrefixSplit(s[..size], s[size..] + t, |s| + |t|);
      assert s[..size] + (s[size..] + t) == s + t;
      ChunksSnoc(s[size..], t, size);
      assert Chunks(s + t, size) == [s[..size]] + Chunks(s[size..] + t, size);
      if |t| == size { DivStep(|s + t|, size); }
    }
  }

  // ---------- the client thread ----------

  datatype Mode = Packed | Unpacked | Bitmap | Other

  function ModeOf(tag: seq<byte>): Mode
    requires |tag| >= 1
  {
    if tag[0] == LETTER_R then Packed
    else if tag[0] == LETTER_G then Unpacked
    else if tag[0] == LETTER_W then Bitmap
    else Other
  }

  /** A screen buffer shows an image of one byte a pixel. */
  ghost predicate Shows(screen: seq<byte>, image: seq<byte>) {
    |image| == IMAGE && |screen| == BUFSIZE &&
    forall x, y :: OnScreen(x, y) ==> Lit(screen, x, y) == (image[x + y * WIDTH] != 0)
  }

  /** The read buffer when only the tag has been read. */
  function FirstRead(tag: seq<byte>): (t: seq<byte>)
    requires |tag| == TAG
    ensures |t| == IMAGE
  {
    tag + seq(IMAGE - TAG, _ => 0 as byte)
  }

  /** These screens are what some reads of bitmap files put on display. */
  ghost predicate BitmapsShown(tag: seq<byte>, was: seq<byte>, body: seq<byte>, screens: seq<seq<byte>>)
    requires |tag| == TAG && |was| == BUFSIZE
  {
    exists pieces :: Wbmp.Pieces(pieces) && Flat(pieces) == body && screens == Wbmp.Images(pieces, FirstRead(tag), was)
  }

  /** What has been published of a stream behind its tag, by a screen that held `was`. */
  ghost predicate BodyShown(tag: seq<byte>, was: seq<byte>, body: seq<byte>, screens: seq<seq<byte>>)
    requires |tag| == TAG && |was| == BUFSIZE
  {
    match ModeOf(tag)
    case Packed => screens == Chunks(body, FRAME)
    case Unpacked => AllShow(screens, Chunks(body, IMAGE))
    case Bitmap => BitmapsShown(tag, was, body, screens)
    case Other => screens == []
  }

  /** What a connection has published after `s` has been read from it. */
  ghost predicate Publishes(s: seq<byte>, was: seq<byte>, screens: seq<seq<byte>>)
    requires |was| == BUFSIZE
  {
    if |s| < TAG then screens == [] else BodyShown(s[..TAG], was, s[TAG..], screens)
  }

  /** Whole screens only. */
  predicate Even(s: seq<byte>, size: nat)
    requires size > 0
  {
    |s| % size == 0
  }

  /** One read of a serving loop; `used` is what went before, in whole screens, `more` what it has read. */
  method ReadScreen(c: Connection, tmpbuf: array<byte>, size: nat, ghost used: seq<byte>)
      returns (retval: nat, ghost more: seq<byte>)
    requires ScreenSize(size) && Even(used, size) && size <= tmpbuf.Length
    requires c.Valid() && !c.over && c.script != []
    modifies c, tmpbuf
    ensures |more| == retval <= size && old(c.incoming) == more + c.incoming
    ensures retval == size ==> !c.over && Even(used + more, size) && tmpbuf[..size] == more
    ensures retval < size ==> c.over || c.script == []
    ensures Chunks(used + more, size) == Chunks(used, size) + if retval == size then [more] else []
    ensures Drain(RoundTurn, old(c.script), size, |old(c.incoming)|) ==
      retval + if retval < size then 0 else Drain(RoundTurn, c.script, size, |c.incoming|)
    ensures |c.script| < |old(c.script)| && Orderly(c, old(c.past + c.script))
  {
    retval, more := c.Recv(tmpbuf, size);
    ChunksSnoc(used, more, size);
  }

  /** The loop for packed screens; `used` is what it has read. */
  method ServePacked(c: Connection, tmpbuf: array<byte>, lcd: Screen) returns (ghost used: seq<byte>)
    requires c.Valid() && !c.over && tmpbuf.Length == IMAGE && lcd.buf.Length == BUFSIZE && tmpbuf != lcd.buf
    modifies c, tmpbuf, lcd, lcd.buf
    ensures old(c.incoming) == used + c.incoming
    ensures |used| == Drain(RoundTurn, old(c.script), FRAME, |old(c.incoming)|)
    ensures lcd.shown == old(lcd.shown) + Chunks(used, FRAME)
    ensures c.over || c.script == []
    ensures Orderly(c, old(c.past + c.script)) && HoldsLast(lcd, |old(lcd.shown)|, old(lcd.buf[..]))
  {
    used := [];
    ghost var n := Drain(RoundTurn, c.script, FRAME, |c.incoming|);
    while c.script != []
      invariant !c.over && Even(used, FRAME) && old(c.incoming) == used + c.incoming
      invariant lcd.shown == old(lcd.shown) + Chunks(used, FRAME)
      invariant n == |used| + Drain(RoundTurn, c.script, FRAME, |c.incoming|)
      invariant Orderly(c, old(c.past + c.script)) && HoldsLast(lcd, |old(lcd.shown)|, old(lcd.buf[..]))
      decreases |c.script|
    {
      var retval;
      ghost var more;
      retval, more := ReadScreen(c, tmpbuf, FRAME, used);
      Assoc(used, more, c.incoming);
      used := used + more;
      if retval != FRAME { break; }
      CopyFrame(tmpbuf, lcd.buf);
      lcd.Refresh();
    }
  }

  method CopyFrame(tmpbuf: array<byte>, buf: array<byte>)
    requires tmpbuf.Length == IMAGE && buf.Length == BUFSIZE && tmpbuf != buf
    modifies buf
    ensures buf[..] == tmpbuf[..FRAME]
  {
    forall i | 0 <= i < BUFSIZE { buf[i] := tmpbuf[i]; }
  }

  /** The loop for screens at one byte a pixel. */
  method ServeUnpacked(c: Connection, tmpbuf: array<byte>, lcd: Screen) returns (ghost used: seq<byte>)
    requires c.Valid() && !c.over && tmpbuf.Length == IMAGE && lcd.buf.Length == BUFSIZE && tmpbuf != lcd.buf
    modifies c, tmpbuf, lcd, lcd.buf
    ensures old(c.incoming) == used + c.incoming
    ensures |used| == Drain(RoundTurn, old(c.script), IMAGE, |old(c.incoming)|)
    ensures ShowsAfter(old(lcd.shown), lcd.shown, Chunks(used, IMAGE))
    ensures c.over || c.script == []
    ensures Orderly(c, old(c.past + c.script)) && HoldsLast(lcd, |old(lcd.shown)|, old(lcd.buf[..]))
  {
    used := [];
    ghost var n := Drain(RoundTurn, c.script, IMAGE, |c.incoming|);
    while c.script != []
      invariant !c.over && Even(used, IMAGE) && old(c.incoming) == used + c.incoming
      invariant ShowsAfter(old(lcd.shown), lcd.shown, Chunks(used, IMAGE))
      invariant n == |used| + Drain(RoundTurn, c.script, IMAGE, |c.incoming|)
      invariant Orderly(c, old(c.past + c.script)) && HoldsLast(lcd, |old(lcd.shown)|, old(lcd.buf[..]))
      decreases |c.script|
    {
      var retval;
      ghost var more, images, shown := [], Chunks(used, IMAGE), lcd.shown;
      retval, more := ReadScreen(c, tmpbuf, IMAGE, used);
      Assoc(used, more, c.incoming);
      used := used + more;
      if retval != IMAGE { break; }
      UnpackImage(tmpbuf, lcd.buf);
      assert tmpbuf[..] == tmpbuf[..IMAGE];
      lcd.Refresh();
      ShowsOneMore(old(lcd.shown), shown, lcd.shown, images, more);
    }
  }

  ghost predicate ShowsAfter(before: seq<seq<byte>>, shown: seq<seq<byte>>, images: seq<seq<byte>>) {
    before <= shown && AllShow(shown[|before|..], images)
  }

  lemma ShowsOneMore(before: seq<seq<byte>>, shown: seq<seq<byte>>, now: seq<seq<byte>>, images: seq<seq<byte>>,
                     image: seq<byte>)
    requires ShowsAfter(before, shown, images) && |now| == |shown| + 1 && now[..|shown|] == shown
    requires Shows(now[|shown|], image)
    ensures ShowsAfter(before, now, images + [image])
  {
    assert now[|before|..] == shown[|before|..] + [now[|shown|]];
    AllShowSnoc(shown[|before|..], images, now[|shown|], image);
  }

  method UnpackImage(tmpbuf: array<byte>, buf: array<byte>)
    requires tmpbuf.Length == IMAGE && buf.Length == BUFSIZE && tmpbuf != buf
    modifies buf
    ensures Shows(buf[..], tmpbuf[..])
  {
    forall i | 0 <= i < 1024 { buf[i] := 0; }
    ConvertBuf(buf, tmpbuf[..]);
  }

  ghost predicate AllShow(screens: seq<seq<byte>>, images: seq<seq<byte>>) {
    |screens| == |images| && forall i :: 0 <= i < |images| ==> Shows(screens[i], images[i])
  }

  lemma AllShowSnoc(screens: seq<seq<byte>>, images: seq<seq<byte>>, screen: seq<byte>, image: seq<byte>)
    requires AllShow(screens, images) && Shows(screen, image)
    ensures AllShow(screens + [screen], images + [image])
  {}

  function BodyRead(tag: seq<byte>, script: seq<Round>, body: seq<byte>): (n: nat)
    requires |tag| == TAG
    ensures n <= |body|
  {
    match ModeOf(tag)
    case Packed => Drain(RoundTurn, script, FRAME, |body|)
    case Unpacked => Drain(RoundTurn, script, IMAGE, |body|)
    case Bitmap => |Flat(Wbmp.PiecesOf(script, body, FirstRead(tag)))|
    case Other => 0
  }

  /** How much of a stream the thread that serves a client reads: the tag, then screens. */
  function ReadBy(script: seq<Round>, stream: seq<byte>): (n: nat)
    ensures n <= |stream|
  {
    var t := Move(RoundTurn, script, TAG, |stream|, false);
    if t.count < TAG then t.count else TAG + BodyRead(stream[..TAG], script[t.used..], stream[TAG..])
  }

  /** The screens that a server's reads of bitmap files put on display. */
  function BitmapsRead(script: seq<Round>, stream: seq<byte>, was: seq<byte>): seq<seq<byte>>
    requires |was| == BUFSIZE
  {
    var t := Move(RoundTurn, script, TAG, |stream|, false);
    if t.count < TAG then []
    else
      var first := FirstRead(stream[..TAG]);
      Wbmp.Images(Wbmp.PiecesOf(script[t.used..], stream[TAG..], first), first, was)
  }

  /** What a server displays of a stream. */
  ghost predicate Displays(script: seq<Round>, stream: seq<byte>, was: seq<byte>, screens: seq<seq<byte>>)
    requires |was| == BUFSIZE
  {
    Publishes(stream[..ReadBy(script, stream)], was, screens) &&
    (stream != [] && ModeOf(stream).Bitmap? ==> screens == BitmapsRead(script, stream, was))
  }

  /** The thread that serves one client: greeting, tag, then screens until the connection ends; `used` is
      what it has read. */
  method ClientThread(c: Connection, hello: Wire, lcd: Screen) returns (ghost used: seq<byte>)
    requires c.Valid() && !c.over && lcd.buf.Length == BUFSIZE
    modifies c, hello, lcd, lcd.buf
    ensures var h := Move(SendTurn, old(hello.script), |HELLO|, |HELLO|, false);
      && hello.sent == old(hello.sent) + HELLO[..h.count]
      && |used| == if h.cut then 0 else ReadBy(old(c.script), old(c.incoming))
    ensures old(c.incoming) == used + c.incoming
    ensures old(lcd.shown) <= lcd.shown && Publishes(used, old(lcd.buf[..]), lcd.shown[|old(lcd.shown)|..])
    ensures used != [] ==>
      Displays(old(c.script), old(c.incoming), old(lcd.buf[..]), lcd.shown[|old(lcd.shown)|..])
    ensures Orderly(c, old(c.past + c.script)) && HoldsLast(lcd, |old(lcd.shown)|, old(lcd.buf[..]))
  {
    used := [];
    var r := hello.Send(HELLO);
    if r < 0 { return; }
    used := ServeClient(c, lcd);
  }

  method ServeClient(c: Connection, lcd: Screen) returns (ghost used: seq<byte>)
    requires c.Valid() && !c.over && lcd.buf.Length == BUFSIZE
    modifies c, lcd, lcd.buf
    ensures |used| == ReadBy(old(c.script), old(c.incoming)) && old(c.incoming) == used + c.incoming
    ensures old(lcd.shown) <= lcd.shown && Publishes(used, old(lcd.buf[..]), lcd.shown[|old(lcd.shown)|..])
    ensures Displays(old(c.script), old(c.incoming), old(lcd.buf[..]), lcd.shown[|old(lcd.shown)|..])
    ensures Orderly(c, old(c.past + c.script)) && HoldsLast(lcd, |old(lcd.shown)|, old(lcd.buf[..]))
  {
    var tmpbuf := new byte[IMAGE](_ => 0);
    ghost var zeros := tmpbuf[..];
    var got;
    got, used := c.Recv(tmpbuf, TAG);
    if got < TAG { return; }
    ghost var tag, stream := used, c.incoming;
    AfterTag(old(c.incoming), zeros, tmpbuf[..], tag, stream);
    ghost var body := ServeTagged(c, tmpbuf, lcd, tag);
    ServedIsDisplayed(old(c.script), tag, body, c.incoming, old(lcd.buf[..]), lcd.shown[|old(lcd.shown)|..]);
    used := tag + body;
  }

  lemma ServedIsDisplayed(script: seq<Round>, tag: seq<byte>, body: seq<byte>, rest: seq<byte>, was: seq<byte>,
                          screens: seq<seq<byte>>)
    requires |tag| == TAG && |was| == BUFSIZE && BodyShown(tag, was, body, screens)
    requires Move(RoundTurn, script, TAG, |tag + (body + rest)|, false).count == TAG
    requires var left := script[Move(RoundTurn, script, TAG, |tag + (body + rest)|, false).used..];
      && |body| == BodyRead(tag, left, body + rest)
      && (ModeOf(tag).Bitmap? ==>
            screens == Wbmp.Images(Wbmp.PiecesOf(left, body + rest, FirstRead(tag)), FirstRead(tag), was))
    ensures var stream := tag + (body + rest);
      && stream == (tag + body) + rest && ReadBy(script, stream) == |tag + body|
      && Publishes(tag + body, was, screens) && Displays(script, stream, was, screens)
  {
    var stream := tag + (body + rest);
    TagAndBody(tag, body, rest);
    PublishesTagged(tag, was, body, screens);
  }

  lemma TagAndBody(tag: seq<byte>, body: seq<byte>, rest: seq<byte>)
    ensures var stream := tag + (body + rest);
      && stream[..|tag|] == tag && stream[|tag|..] == body + rest
      && stream == (tag + body) + rest && stream[..|tag + body|] == tag + body
  {}

  lemma AfterTag(stream: seq<byte>, zeros: seq<byte>, t: seq<byte>, tag: seq<byte>, rest: seq<byte>)
    requires stream == tag + rest && |tag| == TAG && |zeros| == IMAGE && Filled(zeros, t, 0, tag)
    requires forall i :: 0 <= i < IMAGE ==> zeros[i] == 0
    ensures stream[..TAG] == tag && stream[TAG..] == rest && t == FirstRead(tag)
  {}

  /** The loop that the tag asks for, if any. */
  method ServeTagged(c: Connection, tmpbuf: array<byte>, lcd: Screen, ghost tag: seq<byte>)
      returns (ghost body: seq<byte>)
    requires c.Valid() && !c.over && tmpbuf.Length == IMAGE && lcd.buf.Length == BUFSIZE && tmpbuf != lcd.buf
    requires |tag| == TAG && tmpbuf[..] == FirstRead(tag)
    modifies c, tmpbuf, lcd, lcd.buf
    ensures old(c.incoming) == body + c.incoming
    ensures |body| == BodyRead(tag, old(c.script), old(c.incoming))
    ensures old(lcd.shown) <= lcd.shown && BodyShown(tag, old(lcd.buf[..]), body, lcd.shown[|old(lcd.shown)|..])
    ensures ModeOf(tag).Bitmap? ==>
      lcd.shown[|old(lcd.shown)|..] ==
        Wbmp.Images(Wbmp.PiecesOf(old(c.script), old(c.incoming), FirstRead(tag)), FirstRead(tag), old(lcd.buf[..]))
    ensures Orderly(c, old(c.past + c.script)) && HoldsLast(lcd, |old(lcd.shown)|, old(lcd.buf[..]))
  {
    body := [];
    assert tmpbuf[0] == tmpbuf[..][0] == tag[0];
    if tmpbuf[0] == LETTER_G {
      body := ServeUnpacked(c, tmpbuf, lcd);
    } else if tmpbuf[0] == LETTER_R {
      body := ServePacked(c, tmpbuf, lcd);
    } else if tmpbuf[0] == LETTER_W {
      ghost var pieces;
      pieces, body := Wbmp.Serve(c, tmpbuf, lcd);
      assert BitmapsShown(tag, old(lcd.buf[..]), body, Wbmp.Images(pieces, FirstRead(tag), old(lcd.buf[..])));
    }
  }

  lemma PublishesTagged(tag: seq<byte>, was: seq<byte>, body: seq<byte>, screens: seq<seq<byte>>)
    requires |tag| == TAG && |was| == BUFSIZE
    ensures Publishes(tag + body, was, screens) <==> BodyShown(tag, was, body, screens)
  {
    assert (tag + body)[TAG..] == body && (tag + body)[..TAG] == tag;
  }

  /** "G15 daemon HELLO" */
  const HELLO: seq<byte> := [
    0x47, 0x31, 0x35, 0x20, 0x64, 0x61, 0x65, 0x6d, 0x6f, 0x6e, 0x20, 0x48, 0x45, 0x4c, 0x4c, 0x4f]

  // ---------- the client ----------

  // "RBUF", "GBUF", "TBUF" and "WBUF"
  const RBUF: seq<byte> := [LETTER_R, 0x42, 0x55, 0x46]
  const GBUF: seq<byte> := [LETTER_G, 0x42, 0x55, 0x46]
  const TBUF: seq<byte> := [0x54, 0x42, 0x55, 0x46]
  const WBUF: seq<byte> := [0x57, 0x42, 0x55, 0x46]

  datatype ScreenType = TextScreen | WbmpScreen | RenderScreen | PixelScreen

  /** What the server is to make of a client of this kind. */
  function ModeFor(kind: ScreenType): Mode {
    match kind
    case RenderScreen => Packed
    case PixelScreen => Unpacked
    case WbmpScreen => Bitmap
    case TextScreen => Other
  }

  function TagOf(kind: ScreenType): (tag: seq<byte>)
    ensures |tag| == TAG && ModeOf(tag) == ModeFor(kind)
  {
    match kind
    case TextScreen => TBUF
    case WbmpScreen => WBUF
    case RenderScreen => RBUF
    case PixelScreen => GBUF
  }

  /** The whole greeting arrives and is what it should be. */
  predicate Greeted(script: seq<ReadRound>, incoming: seq<byte>) {
    Move(ReadTurn, script, |HELLO|, |incoming|, true).count == |HELLO| && HELLO <= incoming
  }

  /** Opens a screen: the daemon's greeting must come, whole; only then is anything sent, and it is the
      tag. Whether the tag got through is not reported. */
  method NewScreen(from: Inlet, to: Wire, kind: ScreenType) returns (ok: bool)
    requires from as object != to as object
    modifies from, to
    ensures ok <==> Greeted(old(from.script), old(from.incoming))
    ensures var n := Move(ReadTurn, old(from.script), |HELLO|, |old(from.incoming)|, true).count;
      from.incoming == old(from.incoming)[n..]
    ensures ok ==> var o := Move(SendTurn, old(to.script), TAG, TAG, false);
      to.sent == old(to.sent) + TagOf(kind)[..o.count] && to.script == old(to.script)[o.used..]
    ensures !ok ==> to.sent == old(to.sent) && to.script == old(to.script)
  {
    var buffer := from.Recv(|HELLO|);
    ok := buffer == HELLO;
    if ok { var _ := to.Send(TagOf(kind)); }
  }

  /** Everything a client sends that never fails. */
  function Session(tag: seq<byte>, frames: seq<seq<byte>>): seq<byte> {
    tag + Flat(frames)
  }

  /** The parts of some frames that are sent. */
  function Parts(frames: seq<seq<byte>>, cuts: seq<nat>): seq<byte>
    requires Fitting(frames, cuts)
  {
    if frames == [] then [] else frames[0][..cuts[0]] + Parts(frames[1..], cuts[1..])
  }

  predicate Fitting(frames: seq<seq<byte>>, cuts: seq<nat>) {
    |cuts| == |frames| && forall i :: 0 <= i < |cuts| ==> cuts[i] <= |frames[i]|
  }

  function Zeros(k: nat): (z: seq<nat>)
    ensures |z| == k && forall i :: 0 <= i < k ==> z[i] == 0
  {
    seq(k, _ => 0)
  }

  /** How much of each frame goes out. A client that does not persist stops after a failure. */
  function Cuts(script: seq<SendRound>, frames: seq<seq<byte>>, persist: bool): (cuts: seq<nat>)
    ensures Fitting(frames, cuts)
    decreases |frames|
  {
    if frames == [] then []
    else
      var o := Move(SendTurn, script, |frames[0]|, |frames[0]|, false);
      [o.count] +
      if o.cut && !persist then Zeros(|frames| - 1) else Cuts(script[o.used..], frames[1..], persist)
  }

  /** All that a client sends once it has been greeted. */
  function SentBy(script: seq<SendRound>, tag: seq<byte>, frames: seq<seq<byte>>, persist: bool): seq<byte> {
    var o := Move(SendTurn, script, |tag|, |tag|, false);
    tag[..o.count] + Parts(frames, Cuts(script[o.used..], frames, persist))
  }

  /** A client that opens a screen and sends its frames. */
  method RunClient(from: Inlet, w: Wire, kind: ScreenType, frames: seq<seq<byte>>, persist: bool)
    requires from as object != w as object && w.sent == []
    modifies from, w
    ensures w.sent ==
      if Greeted(old(from.script), old(from.incoming))
      then SentBy(old(w.script), TagOf(kind), frames, persist)
      else []
  {
    ghost var o := Move(SendTurn, w.script, TAG, TAG, false);
    var ok := NewScreen(from, w, kind);
    if ok {
      assert w.sent == TagOf(kind)[..o.count];
      SendFrames(w, frames, persist);
    }
  }

  /** Sends frames one after the other. */
  method SendFrames(w: Wire, frames: seq<seq<byte>>, persist: bool)
    modifies w
    ensures w.sent == old(w.sent) + Parts(frames, Cuts(old(w.script), frames, persist))
  {
    ghost var all := w.sent + Parts(frames, Cuts(w.script, frames, persist));
    var i := 0;
    while i < |frames|
      invariant 0 <= i <= |frames|
      invariant all == w.sent + Parts(frames[i..], Cuts(w.script, frames[i..], persist))
    {
      SentFirst(w.sent, w.script, frames, i, persist);
      var r := w.Send(frames[i]);
      if r < 0 && !persist { return; }
      i := i + 1;
    }
    assert frames[i..] == [] && w.sent + [] == w.sent;
  }

  /** What is still to be sent: a part of this frame, and then the rest. */
  lemma SentFirst(sent: seq<byte>, script: seq<SendRound>, frames: seq<seq<byte>>, i: nat, persist: bool)
    requires i < |frames|
    ensures var o := Move(SendTurn, script, |frames[i]|, |frames[i]|, false);
      var now := sent + frames[i][..o.count];
      sent + Parts(frames[i..], Cuts(script, frames[i..], persist)) ==
        if o.cut && !persist then now
        else now + Parts(frames[i + 1..], Cuts(script[o.used..], frames[i + 1..], persist))
  {
    var o := Move(SendTurn, script, |frames[i]|, |frames[i]|, false);
    var rest := if o.cut && !persist then Zeros(|frames| - i - 1) else Cuts(script[o.used..], frames[i + 1..], persist);
    assert frames[i..][1..] == frames[i + 1..];
    NothingSent(frames[i + 1..]);
    PartsFirst(frames[i..], o.count, rest);
    Assoc(sent, frames[i][..o.count], Parts(frames[i + 1..], rest));
  }

  lemma {:induction false} NothingSent(frames: seq<seq<byte>>)
    ensures Parts(frames, Zeros(|frames|)) == []
  {
    if frames != [] {
      assert Zeros(|frames|)[1..] == Zeros(|frames| - 1);
      NothingSent(frames[1..]);
    }
  }

  /** A client that stops sends nothing behind a frame that falls short. */
  lemma NothingBehind(script: seq<SendRound>, frames: seq<seq<byte>>)
    requires frames != []
    requires Move(SendTurn, script, |frames[0]|, |frames[0]|, false).count < |frames[0]|
    ensures Cuts(script, frames, false) ==
      [Move(SendTurn, script, |frames[0]|, |frames[0]|, false).count] + Zeros(|frames| - 1)
  {
    var o := Move(SendTurn, script, |frames[0]|, |frames[0]|, false);
    if !o.cut {
      assert script[o.used..] == [];
      NoTurns(frames[1..], false);
    }
  }

  lemma PartsFirst(frames: seq<seq<byte>>, c: nat, cuts: seq<nat>)
    requires frames != [] && c <= |frames[0]| && Fitting(frames[1..], cuts)
    ensures Fitting(frames, [c] + cuts) && Parts(frames, [c] + cuts) == frames[0][..c] + Parts(frames[1..], cuts)
  {
    assert ([c] + cuts)[1..] == cuts;
  }

  /** A client that stops at a failure sends a part of its session from the start, unless it was the tag
      that failed. */
  lemma {:induction false} StoppingSendsPrefix(script: seq<SendRound>, frames: seq<seq<byte>>)
    ensures Parts(frames, Cuts(script, frames, false)) <= Flat(frames)
    decreases |frames|
  {
    if frames != [] {
      var o := Move(SendTurn, script, |frames[0]|, |frames[0]|, false);
      if o.count < |frames[0]| {
        NothingBehind(script, frames);
        NothingSent(frames[1..]);
        PartsFirst(frames, o.count, Zeros(|frames| - 1));
      } else {
        var rest := Cuts(script[o.used..], frames[1..], false);
        StoppingSendsPrefix(script[o.used..], frames[1..]);
        PartsFirst(frames, o.count, rest);
      }
    }
  }

  lemma {:induction false} NoTurns(frames: seq<seq<byte>>, persist: bool)
    ensures Cuts([], frames, persist) == Zeros(|frames|) && Parts(frames, Cuts([], frames, persist)) == []
  {
    if frames != [] {
      assert Move(SendTurn, [], |frames[0]|, |frames[0]|, false) == Outcome(0, 0, false);
      NoTurns(frames[1..], persist);
      assert [0] + Zeros(|frames| - 1) == Zeros(|frames|);
      NothingSent(frames);
    }
  }

  /** If no send fails and there are turns enough, all frames go out. */
  lemma {:induction false} AllSent(script: seq<SendRound>, frames: seq<seq<byte>>, persist: bool)
    requires Clear(SendTurn, script) && Takes(SendTurn, script) >= |Flat(frames)|
    ensures Parts(frames, Cuts(script, frames, persist)) == Flat(frames)
    decreases |frames|
  {
    if frames != [] {
      var o := Move(SendTurn, script, |frames[0]|, |frames[0]|, false);
      EnoughTurns(SendTurn, script, |frames[0]|, |frames[0]|);
      AllSent(script[o.used..], frames[1..], persist);
    }
  }

  // ---------- end to end ----------

  /** Of a session of packed frames, whatever part has reached the server, the published screens are
      exactly the frames that have arrived whole, in order. */
  lemma {:induction false} PackedEndToEnd(frames: seq<seq<byte>>, received: seq<byte>, was: seq<byte>,
                                         screens: seq<seq<byte>>)
    requires |was| == BUFSIZE && Whole(frames, FRAME) && received <= Session(TagOf(RenderScreen), frames)
    requires Publishes(received, was, screens)
    ensures |received| < TAG ==> screens == []
    ensures |received| >= TAG ==>
      (|received| - TAG) / FRAME <= |frames| && screens == frames[..(|received| - TAG) / FRAME]
  {
    if |received| >= TAG {
      SessionPrefix(TagOf(RenderScreen), frames, received);
      ChunksOfPrefix(frames, FRAME, |received| - TAG);
    }
  }

  lemma SessionPrefix(tag: seq<byte>, frames: seq<seq<byte>>, received: seq<byte>)
    requires |tag| == TAG <= |received| && received <= Session(tag, frames)
    ensures |received| <= TAG + |Flat(frames)|
    ensures received[TAG..] == Flat(frames)[..|received| - TAG] && received[..TAG] == tag
  {
    assert received == Session(tag, frames)[..|received|];
  }

  /** Images cut after `n` bytes: those that arrived whole are shown. */
  lemma ShownPrefix(images: seq<seq<byte>>, n: nat, screens: seq<seq<byte>>)
    requires Whole(images, IMAGE) && n <= |Flat(images)| && AllShow(screens, Chunks(Flat(images)[..n], IMAGE))
    ensures n / IMAGE <= |images| && AllShow(screens, images[..n / IMAGE])
  {
    ChunksOfPrefix(images, IMAGE, n);
  }

  /** The same for images at one byte a pixel: the published screens show the images that have arrived
      whole, in order. */
  lemma {:induction false} UnpackedEndToEnd(images: seq<seq<byte>>, received: seq<byte>, was: seq<byte>,
                                         screens: seq<seq<byte>>)
    requires |was| == BUFSIZE && Whole(images, IMAGE) && received <= Session(TagOf(PixelScreen), images)
    requires Publishes(received, was, screens)
    ensures |received| < TAG ==> screens == []
    ensures |received| >= TAG ==>
      (|received| - TAG) / IMAGE <= |images| && AllShow(screens, images[..(|received| - TAG) / IMAGE])
  {
    if |received| >= TAG {
      SessionPrefix(TagOf(PixelScreen), images, received);
      ShownPrefix(images, |received| - TAG, screens);
    }
  }

  /** If nothing stops the server's reads and there are turns enough, it reads everything. */
  lemma ReadsEverything(script: seq<Round>, stream: seq<byte>)
    requires Clear(RoundTurn, script) && Takes(RoundTurn, script) >= |stream| >= TAG
    requires ModeOf(stream).Packed? || ModeOf(stream).Unpacked?
    ensures ReadBy(script, stream) == |stream|
  {
    EnoughTurns(RoundTurn, script, TAG, |stream|);
    var rest := script[Move(RoundTurn, script, TAG, |stream|, false).used..];
    assert ModeOf(stream[..TAG]) == ModeOf(stream);
    DrainReads(RoundTurn, rest, if ModeOf(stream).Packed? then FRAME else IMAGE, |stream| - TAG);
  }

  /** Once everything sent has arrived, the screens shown are the frames. */
  lemma PackedAllArrived(frames: seq<seq<byte>>, was: seq<byte>, screens: seq<seq<byte>>)
    requires |was| == BUFSIZE && Whole(frames, FRAME) && Publishes(Session(TagOf(RenderScreen), frames), was, screens)
    ensures screens == frames
  {
    FlatLength(frames, FRAME);
    PackedEndToEnd(frames, Session(TagOf(RenderScreen), frames), was, screens);
    assert frames[..|frames|] == frames;
  }

  lemma UnpackedAllArrived(images: seq<seq<byte>>, was: seq<byte>, screens: seq<seq<byte>>)
    requires |was| == BUFSIZE && Whole(images, IMAGE) && Publishes(Session(TagOf(PixelScreen), images), was, screens)
    ensures AllShow(screens, images)
  {
    FlatLength(images, IMAGE);
    UnpackedEndToEnd(images, Session(TagOf(PixelScreen), images), was, screens);
    assert images[..|images|] == images;
  }

  /** Both ends undisturbed: what the client sent, the server has shown, screen for screen. */
  lemma PackedSessionComplete(sending: seq<SendRound>, reading: seq<Round>, frames: seq<seq<byte>>, persist: bool,
                              was: seq<byte>, screens: seq<seq<byte>>)
    requires |was| == BUFSIZE && Whole(frames, FRAME)
    requires Clear(SendTurn, sending) && Takes(SendTurn, sending) >= |Session(TagOf(RenderScreen), frames)|
    requires Clear(RoundTurn, reading) && Takes(RoundTurn, reading) >= |Session(TagOf(RenderScreen), frames)|
    requires var sent := SentBy(sending, TagOf(RenderScreen), frames, persist);
      Publishes(sent[..ReadBy(reading, sent)], was, screens)
    ensures screens == frames
  {
    SessionSent(sending, TagOf(RenderScreen), frames, persist);
    var sent := Session(TagOf(RenderScreen), frames);
    assert sent[0] == TagOf(RenderScreen)[0];
    ReadsEverything(reading, sent);
    assert sent[..|sent|] == sent;
    PackedAllArrived(frames, was, screens);
  }

  lemma UnpackedSessionComplete(sending: seq<SendRound>, reading: seq<Round>, images: seq<seq<byte>>, persist: bool,
                                was: seq<byte>, screens: seq<seq<byte>>)
    requires |was| == BUFSIZE && Whole(images, IMAGE)
    requires Clear(SendTurn, sending) && Takes(SendTurn, sending) >= |Session(TagOf(PixelScreen), images)|
    requires Clear(RoundTurn, reading) && Takes(RoundTurn, reading) >= |Session(TagOf(PixelScreen), images)|
    requires var sent := SentBy(sending, TagOf(PixelScreen), images, persist);
      Publishes(sent[..ReadBy(reading, sent)], was, screens)
    ensures AllShow(screens, images)
  {
    SessionSent(sending, TagOf(PixelScreen), images, persist);
    var sent := Session(TagOf(PixelScreen), images);
    assert sent[0] == TagOf(PixelScreen)[0];
    ReadsEverything(reading, sent);
    assert sent[..|sent|] == sent;
    UnpackedAllArrived(images, was, screens);
  }

  /** Bitmap files of a read each: each screen displayed is the image of a file that the client sent. */
  lemma BitmapSessionComplete(sending: seq<SendRound>, reading: seq<Round>, files: seq<seq<byte>>, persist: bool,
                              was: seq<byte>, screens: seq<seq<byte>>)
    requires |was| == BUFSIZE
    requires forall i :: 0 <= i < |files| ==> Wbmp.WholeFile(files[i]) && Wbmp.RowsOf(files[i]) <= 43
    requires Clear(SendTurn, sending) && Takes(SendTurn, sending) >= |Session(TagOf(WbmpScreen), files)|
    requires Clear(RoundTurn, reading) && Takes(RoundTurn, reading) >= |Session(TagOf(WbmpScreen), files)|
    requires Displays(reading, SentBy(sending, TagOf(WbmpScreen), files, persist), was, screens)
    ensures |screens| == |files| && forall i :: 0 <= i < |files| ==> Wbmp.ShowsFile(screens[i], files[i])
  {
    var tag, sent := TagOf(WbmpScreen), Session(TagOf(WbmpScreen), files);
    SessionSent(sending, tag, files, persist);
    assert sent[..TAG] == tag && sent[TAG..] == Flat(files);
    EnoughTurns(RoundTurn, reading, TAG, |sent|);
    Wbmp.FilesAreRead(reading[Move(RoundTurn, reading, TAG, |sent|, false).used..], files, FirstRead(tag));
    Wbmp.FilesAreShown(files, FirstRead(tag), was);
  }

  /** Nothing is displayed for a client that asks for a text screen. */
  lemma TextShowsNothing(reading: seq<Round>, body: seq<byte>, was: seq<byte>, screens: seq<seq<byte>>)
    requires |was| == BUFSIZE && Displays(reading, TagOf(TextScreen) + body, was, screens)
    ensures screens == [] && ReadBy(reading, TagOf(TextScreen) + body) <= TAG
  {
    assert (TagOf(TextScreen) + body)[..TAG] == TagOf(TextScreen);
  }

  lemma SessionSent(script: seq<SendRound>, tag: seq<byte>, frames: seq<seq<byte>>, persist: bool)
    requires |tag| == TAG && Clear(SendTurn, script) && Takes(SendTurn, script) >= |Session(tag, frames)|
    ensures SentBy(script, tag, frames, persist) == Session(tag, frames)
  {
    EnoughTurns(SendTurn, script, TAG, TAG);
    AllSent(script[Move(SendTurn, script, TAG, TAG, false).used..], frames, persist);
    assert tag[..TAG] == tag;
  }

  lemma {:induction false} FlatLength(frames: seq<seq<byte>>, size: nat)
    requires ScreenSize(size) && Whole(frames, size)
    ensures |Flat(frames)| / size == |frames|
  {
    if frames == [] {
      DivZero(0, size);
    } else {
      FlatLength(frames[1..], size);
      DivStep(|Flat(frames)|, size);
    }
  }
}
