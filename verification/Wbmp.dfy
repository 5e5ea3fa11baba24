/**
Screens sent as bitmap files. Each read is taken for the front of a file: its header is decoded from what the
buffer then holds, and an image 160 pixels wide is shown, however little of it the read has brought.
*/
module Wbmp {
  import opened Sequences
  import opened Transfer
  import opened Sockets
  import opened Display
  import opened Pixels

  const FILE: nat := 865        // one read
  const BITMAP: nat := 860      // what is shown of an image at most
  const WIDE: byte := 0xA0      // 160 pixels

  datatype Header = Header(width: byte, height: byte, size: nat)

  /** A width that continues in a second byte makes the header longer. */
  function HeaderOf(t: seq<byte>): (h: Header)
    requires |t| >= 5
    ensures h.size == 4 || h.size == 5
  {
    if t[2] & 1 != 0 then Header((t[2] ^ 1) | t[3], t[4], 5) else Header(t[2], t[3], 4)
  }

  function Length(h: Header): nat {
    (h.width as nat / 8) * (h.height as nat)
  }

  /** The rounds left when an oversized image's remainder has been asked for. */
  function AfterRemainder(script: seq<Round>, t: seq<byte>, avail: nat): (rest: seq<Round>)
    requires |t| >= 5
    ensures |rest| <= |script|
  {
    var n := Length(HeaderOf(t));
    if n > BITMAP then script[Move(NowhereTurn(avail), script, n - BITMAP, 0, false).used..] else script
  }

  /** The buffer after a read. */
  function Over(t: seq<byte>, data: seq<byte>): (r: seq<byte>)
    requires |data| <= |t|
    ensures |r| == |t|
  {
    data + t[|data|..]
  }

  /** The screen after an image has been copied to it. */
  function Pasted(t: seq<byte>, screen: seq<byte>): (r: seq<byte>)
    requires |t| == IMAGE && |screen| == BUFSIZE
    ensures |r| == BUFSIZE
  {
    var h := HeaderOf(t);
    var n := h.size + Min(Length(h), BITMAP);
    t[h.size..h.size + n] + screen[n..]
  }

  predicate Pieces(pieces: seq<seq<byte>>) {
    forall i :: 0 <= i < |pieces| ==> 0 < |pieces[i]| <= FILE
  }

  /** What the reads of a connection bring, up to an empty one or an image of another width. */
  function PiecesOf(script: seq<Round>, stream: seq<byte>, t: seq<byte>): (pieces: seq<seq<byte>>)
    requires |t| == IMAGE
    ensures Pieces(pieces) && Flat(pieces) <= stream
    decreases |script|
  {
    if script == [] then []
    else
      var o := Move(RoundTurn, script, FILE, |stream|, false);
      if o.count == 0 then []
      else
        var data := stream[..o.count];
        var now := Over(t, data);
        assert data + stream[o.count..] == stream;
        [data] +
        if HeaderOf(now).width != WIDE then []
        else PiecesOf(AfterRemainder(script[o.used..], now, |stream| - o.count), stream[o.count..], now)
  }

  /** The screens that some reads put on display. */
  function Images(pieces: seq<seq<byte>>, t: seq<byte>, screen: seq<byte>): (screens: seq<seq<byte>>)
    requires |t| == IMAGE && |screen| == BUFSIZE && Pieces(pieces)
    decreases |pieces|
  {
    if pieces == [] then []
    else
      var now := Over(t, pieces[0]);
      if HeaderOf(now).width != WIDE then []
      else
        var next := Pasted(now, screen);
        [next] + Images(pieces[1..], now, next)
  }

  method Decode(tmpbuf: array<byte>) returns (h: Header)
    requires tmpbuf.Length == IMAGE
    ensures h == HeaderOf(tmpbuf[..])
  {
    if tmpbuf[2] & 1 != 0 {
      h := Header((tmpbuf[2] ^ 1) | tmpbuf[3], tmpbuf[4], 5);
    } else {
      h := Header(tmpbuf[2], tmpbuf[3], 4);
    }
  }

  /** What the first read brings, and what comes after it. */
  lemma FirstPiece(script: seq<Round>, stream: seq<byte>, t: seq<byte>, data: seq<byte>, rest: seq<byte>)
    requires script != [] && |t| == IMAGE && stream == data + rest
    requires |data| == Move(RoundTurn, script, FILE, |stream|, false).count
    ensures var left := script[Move(RoundTurn, script, FILE, |stream|, false).used..];
      var now := Over(t, data);
      PiecesOf(script, stream, t) == if data == [] then [] else
        [data] + if HeaderOf(now).width != WIDE then []
                 else PiecesOf(AfterRemainder(left, now, |rest|), rest, now)
  {
    assert stream[..|data|] == data && stream[|data|..] == rest;
  }

  /** Asks for the rest of an oversized image. */
  method FetchRemainder(c: Connection, h: Header, ghost t: seq<byte>)
    requires c.Valid() && |t| == IMAGE && h == HeaderOf(t)
    modifies c
    ensures c.script == AfterRemainder(old(c.script), t, |c.incoming|) && c.incoming == old(c.incoming)
    ensures Orderly(c, old(c.past + c.script))
  {
    if Length(h) > BITMAP { c.RecvNowhere(Length(h) - BITMAP); }
  }

  /** One read, its header, and the request for the rest of an oversized image; `left` is all that will be
      read. */
  method ReadOne(c: Connection, tmpbuf: array<byte>, ghost left: seq<seq<byte>>)
      returns (retval: nat, h: Header, ghost data: seq<byte>)
    requires c.Valid() && c.script != [] && tmpbuf.Length == IMAGE
    requires left == PiecesOf(c.script, c.incoming, tmpbuf[..])
    modifies c, tmpbuf
    ensures |data| == retval <= FILE && old(c.incoming) == data + c.incoming
    ensures tmpbuf[..] == Over(old(tmpbuf[..]), data) && h == HeaderOf(tmpbuf[..])
    ensures left == if retval == 0 then [] else
      [data] + if h.width != WIDE then [] else PiecesOf(c.script, c.incoming, tmpbuf[..])
    ensures |c.script| < |old(c.script)| && Orderly(c, old(c.past + c.script))
  {
    retval, data := ReadFront(c, tmpbuf);
    FirstPiece(old(c.script), old(c.incoming), old(tmpbuf[..]), data, c.incoming);
    h := Decode(tmpbuf);
    if retval > 0 { FetchRemainder(c, h, tmpbuf[..]); }
  }

  method ReadFront(c: Connection, tmpbuf: array<byte>) returns (retval: nat, ghost data: seq<byte>)
    requires c.Valid() && c.script != [] && tmpbuf.Length == IMAGE
    modifies c, tmpbuf
    ensures var o := Move(RoundTurn, old(c.script), FILE, |old(c.incoming)|, false);
      retval == o.count && c.script == old(c.script)[o.used..] && |c.script| < |old(c.script)|
    ensures |data| == retval && old(c.incoming) == data + c.incoming
    ensures tmpbuf[..] == Over(old(tmpbuf[..]), data)
    ensures Orderly(c, old(c.past + c.script))
  {
    retval, data := c.Recv(tmpbuf, FILE);
    FilledIsOver(old(tmpbuf[..]), tmpbuf[..], data);
  }

  lemma FilledIsOver(was: seq<byte>, now: seq<byte>, data: seq<byte>)
    requires Filled(was, now, 0, data)
    ensures now == Over(was, data)
  {}

  /** Copies an image to the screen. */
  method Paste(tmpbuf: array<byte>, h: Header, buf: array<byte>)
    requires tmpbuf.Length == IMAGE && buf.Length == BUFSIZE && tmpbuf != buf && h == HeaderOf(tmpbuf[..])
    modifies buf
    ensures buf[..] == Pasted(tmpbuf[..], old(buf[..]))
  {
    var n := h.size + Min(Length(h), BITMAP);
    forall i | 0 <= i < n { buf[i] := tmpbuf[h.size + i]; }
  }

  method Show(tmpbuf: array<byte>, h: Header, lcd: Screen)
    requires tmpbuf.Length == IMAGE && lcd.buf.Length == BUFSIZE && tmpbuf != lcd.buf && h == HeaderOf(tmpbuf[..])
    modifies lcd`shown, lcd.buf
    ensures lcd.buf[..] == Pasted(tmpbuf[..], old(lcd.buf[..])) && lcd.shown == old(lcd.shown) + [lcd.buf[..]]
  {
    Paste(tmpbuf, h, lcd.buf);
    lcd.Refresh();
  }

  /** The loop for bitmap files; `pieces` is what its reads bring, `used` all of it. */
  method Serve(c: Connection, tmpbuf: array<byte>, lcd: Screen)
      returns (ghost pieces: seq<seq<byte>>, ghost used: seq<byte>)
    requires c.Valid() && tmpbuf.Length == IMAGE && lcd.buf.Length == BUFSIZE && tmpbuf != lcd.buf
    modifies c, tmpbuf, lcd, lcd.buf
    ensures pieces == PiecesOf(old(c.script), old(c.incoming), old(tmpbuf[..]))
    ensures old(c.incoming) == used + c.incoming && Flat(pieces) == used
    ensures lcd.shown == old(lcd.shown) + Images(pieces, old(tmpbuf[..]), old(lcd.buf[..]))
    ensures Orderly(c, old(c.past + c.script)) && HoldsLast(lcd, |old(lcd.shown)|, old(lcd.buf[..]))
  {
    pieces := PiecesOf(c.script, c.incoming, tmpbuf[..]);
    ghost var all := lcd.shown + Images(pieces, tmpbuf[..], lcd.buf[..]);
    ghost var left := pieces;
    used := [];
    while c.script != []
      invariant Orderly(c, old(c.past + c.script)) && HoldsLast(lcd, |old(lcd.shown)|, old(lcd.buf[..]))
      invariant old(c.incoming) == used + c.incoming && Flat(pieces) == used + Flat(left)
      invariant left == PiecesOf(c.script, c.incoming, tmpbuf[..])
      invariant all == lcd.shown + Images(left, tmpbuf[..], lcd.buf[..])
      decreases |c.script|
    {
      ghost var t := tmpbuf[..];
      var retval, h;
      ghost var data;
      retval, h, data := ReadOne(c, tmpbuf, left);
      if retval == 0 { break; }
      FlatFirst(used, data, left[1..], c.incoming);
      used := used + data;
      ImagesFirst(lcd.shown, left, t, lcd.buf[..]);
      left := left[1..];
      if h.width != WIDE { break; }
      Show(tmpbuf, h, lcd);
    }
    assert left == [];
    assert used + [] == used && lcd.shown + [] == lcd.shown;
  }

  lemma FlatFirst(done: seq<byte>, data: seq<byte>, left: seq<seq<byte>>, rest: seq<byte>)
    ensures done + Flat([data] + left) == (done + data) + Flat(left)
    ensures done + (data + rest) == (done + data) + rest
  {
    assert ([data] + left)[1..] == left;
    Assoc(done, data, Flat(left));
    Assoc(done, data, rest);
  }

  lemma ImagesFirst(shown: seq<seq<byte>>, pieces: seq<seq<byte>>, t: seq<byte>, screen: seq<byte>)
    requires |t| == IMAGE && |screen| == BUFSIZE && Pieces(pieces) && pieces != []
    ensures var now := Over(t, pieces[0]);
      shown + Images(pieces, t, screen) ==
        if HeaderOf(now).width != WIDE then shown
        else (shown + [Pasted(now, screen)]) + Images(pieces[1..], now, Pasted(now, screen))
  {
    var now := Over(t, pieces[0]);
    if HeaderOf(now).width == WIDE {
      Assoc(shown, [Pasted(now, screen)], Images(pieces[1..], now, Pasted(now, screen)));
    } else {
      assert shown + [] == shown;
    }
  }

  // ---------- well-formed files ----------

  /** A file that fills a read: an image 160 pixels wide, its width in one byte or in two. */
  predicate WholeFile(f: seq<byte>) {
    |f| == 865 && if TwoBytes(f) then f[3] == 0x20 else f[2] == 160
  }

  predicate TwoBytes(f: seq<byte>)
    requires |f| == 865
  {
    f[2] == 0x81
  }

  function RowsOf(f: seq<byte>): nat
    requires |f| == 865
  {
    (if TwoBytes(f) then f[4] else f[3]) as nat
  }

  /** The image behind the header of four or five bytes, twenty bytes a row, and as many as the screen has. */
  function ImageOf(f: seq<byte>): seq<byte>
    requires WholeFile(f)
  {
    var header := if TwoBytes(f) then 5 else 4;
    f[header..header + 20 * Min(RowsOf(f), 43)]
  }

  predicate ShowsFile(screen: seq<byte>, f: seq<byte>) {
    |screen| == BUFSIZE && WholeFile(f) && ImageOf(f) <= screen
  }

  /** If each read brings one file, each screen shows its image. */
  lemma {:induction false} FilesAreShown(files: seq<seq<byte>>, t: seq<byte>, screen: seq<byte>)
    requires |t| == IMAGE && |screen| == BUFSIZE
    requires forall i :: 0 <= i < |files| ==> WholeFile(files[i])
    ensures Pieces(files)
    ensures var screens := Images(files, t, screen);
      |screens| == |files| && forall i :: 0 <= i < |files| ==> ShowsFile(screens[i], files[i])
    decreases |files|
  {
    if files != [] {
      var now := Over(t, files[0]);
      FileIsShown(files[0], t, screen);
      FilesAreShown(files[1..], now, Pasted(now, screen));
    }
  }

  /** Nothing stops the reads, and there are rounds enough: each read brings one file. */
  lemma {:induction false} FilesAreRead(script: seq<Round>, files: seq<seq<byte>>, t: seq<byte>)
    requires |t| == IMAGE && forall i :: 0 <= i < |files| ==> WholeFile(files[i]) && RowsOf(files[i]) <= 43
    requires Clear(RoundTurn, script) && Takes(RoundTurn, script) >= |Flat(files)|
    ensures PiecesOf(script, Flat(files), t) == files
    decreases |files|
  {
    if files != [] {
      var left := OneFile(script, files[0], Flat(files[1..]), t);
      FilesAreRead(left, files[1..], Over(t, files[0]));
    }
  }

  lemma OneFile(script: seq<Round>, f: seq<byte>, rest: seq<byte>, t: seq<byte>) returns (left: seq<Round>)
    requires |t| == IMAGE && WholeFile(f) && RowsOf(f) <= 43
    requires Clear(RoundTurn, script) && Takes(RoundTurn, script) >= |f| + |rest|
    ensures PiecesOf(script, f + rest, t) == [f] + PiecesOf(left, rest, Over(t, f))
    ensures Clear(RoundTurn, left) && Takes(RoundTurn, left) >= |rest| && |left| <= |script|
  {
    EnoughTurns(RoundTurn, script, FILE, |f + rest|);
    left := script[Move(RoundTurn, script, FILE, |f + rest|, false).used..];
    FileIsShown(f, t, t[..BUFSIZE]);
    Fits(left, Over(t, f), |rest|);
    FirstPiece(script, f + rest, t, f, rest);
  }

  /** An image that is too high costs the rounds up to the one that finds something to read, or an error; what
      it would have read is not lost. */
  lemma {:induction false} TooHigh(waits: seq<Round>, r: Round, rest: seq<Round>, t: seq<byte>, avail: nat)
    requires |t| >= 5 && Length(HeaderOf(t)) > 860
    requires (forall i :: 0 <= i < |waits| ==> !EndsNowhere(waits[i], avail)) && EndsNowhere(r, avail)
    ensures AfterRemainder(waits + ([r] + rest), t, avail) == rest
  {
    WaitsThenEnds(waits, r, rest, Length(HeaderOf(t)) - BITMAP, avail);
  }

  lemma WaitsThenEnds(waits: seq<Round>, r: Round, rest: seq<Round>, len: nat, avail: nat)
    requires len > 0 && EndsNowhere(r, avail) && forall i :: 0 <= i < |waits| ==> !EndsNowhere(waits[i], avail)
    ensures var script := waits + ([r] + rest);
      script[Move(NowhereTurn(avail), script, len, 0, false).used..] == rest
  {
    forall i | 0 <= i < |waits| ensures !NowhereTurn(avail)(waits[i]).Stop? {}
    MoveStopped(NowhereTurn(avail), waits, r, rest, len, 0);
    assert (waits + ([r] + rest))[|waits| + 1..] == rest;
  }

  /** An image of another width is the last thing that is read, and is not shown. */
  lemma OtherWidthEnds(f: seq<byte>, more: seq<seq<byte>>, t: seq<byte>, screen: seq<byte>)
    requires |t| == IMAGE && |screen| == BUFSIZE && Pieces([f] + more) && |f| == 865
    requires if f[2] & 1 == 0 then f[2] != 160 else (f[2] & 0xFE) | f[3] != 160
    ensures Images([f] + more, t, screen) == []
  {
    var now := Over(t, f);
    assert now[2] == f[2] && now[3] == f[3];
    LowBit(f[2]);
  }

  lemma LowBit(b: byte)
    ensures b & 1 != 0 ==> b ^ 1 == b & 0xFE
  {}

  lemma OtherWidthIsLast(script: seq<Round>, stream: seq<byte>, t: seq<byte>)
    requires |t| == IMAGE && script != [] && Move(RoundTurn, script, FILE, |stream|, false).count == 865
    requires if stream[2] & 1 == 0 then stream[2] != 160 else (stream[2] & 0xFE) | stream[3] != 160
    ensures PiecesOf(script, stream, t) == [stream[..865]]
  {
    var f := stream[..865];
    var now := Over(t, f);
    assert now[2] == f[2] && now[3] == f[3];
    LowBit(f[2]);
    FirstPiece(script, stream, t, f, stream[865..]);
  }

  /** Nothing more is asked for of an image that fits. */
  lemma Fits(script: seq<Round>, t: seq<byte>, avail: nat)
    requires |t| >= 5 && Length(HeaderOf(t)) <= BITMAP
    ensures AfterRemainder(script, t, avail) == script
  {}

  lemma FileIsShown(f: seq<byte>, t: seq<byte>, screen: seq<byte>)
    requires |t| == IMAGE && |screen| == BUFSIZE && WholeFile(f)
    ensures var h := HeaderOf(Over(t, f));
      h.width == WIDE && Length(h) == 20 * RowsOf(f) && ShowsFile(Pasted(Over(t, f), screen), f)
  {
    var now := Over(t, f);
    var h := HeaderOf(now);
    WholeHeader(f, t);
    SameFront(f, t, h.size, h.size + Min(Length(h), BITMAP));
    PastedBegins(now, screen);
  }

  lemma SameFront(f: seq<byte>, t: seq<byte>, from: nat, to: nat)
    requires |f| <= |t| && from <= to <= |f|
    ensures f[from..to] == Over(t, f)[from..to]
  {}

  lemma PastedBegins(t: seq<byte>, screen: seq<byte>)
    requires |t| == IMAGE && |screen| == BUFSIZE
    ensures var h := HeaderOf(t); t[h.size..h.size + Min(Length(h), BITMAP)] <= Pasted(t, screen)
  {
    var h := HeaderOf(t);
    var n := Min(Length(h), BITMAP);
    assert t[h.size..h.size + (h.size + n)][..n] == t[h.size..h.size + n];
  }

  lemma WholeHeader(f: seq<byte>, t: seq<byte>)
    requires |t| == IMAGE && WholeFile(f)
    ensures var h := HeaderOf(Over(t, f));
      h == (if TwoBytes(f) then Header(WIDE, f[4], 5) else Header(WIDE, f[3], 4)) && Length(h) == 20 * RowsOf(f)
  {
    var now := Over(t, f);
    assert forall i :: 0 <= i < 5 ==> now[i] == f[i];
  }

  /** A read of a single byte is enough to show something, if the buffer holds a width of 160. */
  lemma AnyReadShows(pieces: seq<seq<byte>>, t: seq<byte>, screen: seq<byte>)
    requires |t| == IMAGE && |screen| == BUFSIZE && Pieces(pieces) && pieces != []
    requires t[2] == WIDE && (|pieces[0]| > 2 ==> pieces[0][2] == WIDE)
    ensures Images(pieces, t, screen) != []
  {
    var now := Over(t, pieces[0]);
    assert now[2] == WIDE;
    assert HeaderOf(now).width == WIDE;
  }

  /** So it does on a server that gets to read anything at all of such a stream. */
  lemma OneReadShows(script: seq<Round>, stream: seq<byte>, t: seq<byte>, screen: seq<byte>)
    requires |t| == IMAGE && |screen| == BUFSIZE && Move(RoundTurn, script, FILE, |stream|, false).count > 0
    requires t[2] == WIDE && (|stream| > 2 ==> stream[2] == WIDE)
    ensures Images(PiecesOf(script, stream, t), t, screen) != []
  {
    var pieces := PiecesOf(script, stream, t);
    assert pieces != [] && pieces[0] == stream[..Move(RoundTurn, script, FILE, |stream|, false).count];
    AnyReadShows(pieces, t, screen);
  }
}
