/** A client's screen, as the server keeps it. */
module Display {
  import opened Sockets
  import opened Pixels

  /** A client's screen buffer, and the screens that have been put on display from it. */
  class Screen {
    const buf: array<byte>
    var shown: seq<seq<byte>>

    constructor ()
      ensures buf.Length == BUFSIZE && fresh(buf) && shown == []
    {
      buf := new byte[BUFSIZE];
      shown := [];
    }

    method Refresh()
      modifies this`shown
      ensures shown == old(shown) + [buf[..]]
    {
      shown := shown + [buf[..]];
    }
  }

  /** The screen buffer holds what was shown last. */
  ghost predicate HoldsLast(lcd: Screen, before: nat, was: seq<byte>)
    reads lcd, lcd.buf
  {
    before <= |lcd.shown| && lcd.buf[..] == if |lcd.shown| == before then was else lcd.shown[|lcd.shown| - 1]
  }
}
