/**
The two ends of a stream, as the daemon and its client library use them: receiving with commands in
between, sending, and what cuts either short.
*/
module Sockets {
  import opened Sequences
  import opened Transfer

  type byte = bv8

  const FRAME: nat := 1048      // one packed screen
  const IMAGE: nat := 6880      // one screen at one byte a pixel
  const TAG: nat := 4

  const LETTER_R: byte := 0x52
  const LETTER_G: byte := 0x47
  const LETTER_W: byte := 0x57

  // ---------- receiving ----------

  /** One round of the receiving loop: what poll reported and what the read then did. The end of
      the script is the daemon leaving. */
  datatype Round =
    | Quiet                  // poll timed out or failed
    | Urgent(command: byte)  // an out-of-band command was read
    | UrgentLost             // an out-of-band read that failed
    | Ready(n: nat)          // a read takes up to n bytes (none: it would have blocked)
    | Again                  // the read would have blocked
    | Closed                 // the peer has shut the stream
    | Failed                 // the read failed
    | HangUp(again: bool)    // an error condition, possibly with a stale "try again"

  /** The rounds that end a receive. */
  predicate Breaks(r: Round) {
    r.UrgentLost? || r.Closed? || r.Failed? || (r.HangUp? && !r.again)
  }

  function RoundTurn(r: Round): Turn {
    if Breaks(r) then Stop else if r.Ready? then Take(r.n) else Pass
  }

  /** A receive without a buffer while `avail` bytes are there. */
  function NowhereTurn(avail: nat): Round -> Turn {
    (r: Round) => if Breaks(r) || (r.Ready? && r.n > 0 && avail > 0) then Stop else Pass
  }

  /** The commands among some rounds. */
  function CommandsIn(rounds: seq<Round>): seq<byte> {
    if rounds == [] then []
    else
      var last := rounds[|rounds| - 1];
      CommandsIn(rounds[..|rounds| - 1]) + (if last.Urgent? then [last.command] else [])
  }

  /** Every command counts, in order, and nothing else does. */
  lemma {:induction false} CommandsConcat(a: seq<Round>, b: seq<Round>)
    ensures CommandsIn(a + b) == CommandsIn(a) + CommandsIn(b)
  {
    if b == [] {
      assert a + b == a;
    } else {
      var n := |b| - 1;
      assert (a + b)[..|a + b| - 1] == a + b[..n];
      CommandsConcat(a, b[..n]);
    }
  }

  lemma {:induction false} CommandAt(rounds: seq<Round>, i: nat)
    requires i < |rounds|
    ensures var before, behind := CommandsIn(rounds[..i]), CommandsIn(rounds[i + 1..]);
      CommandsIn(rounds) ==
        match rounds[i]
        case Urgent(command) => before + [command] + behind
        case _ => before + behind
  {
    var one := rounds[i..i + 1];
    assert rounds == rounds[..i] + one + rounds[i + 1..];
    CommandsConcat(rounds[..i] + one, rounds[i + 1..]);
    CommandsConcat(rounds[..i], one);
    assert one[..0] == [];
  }

  /** One client connection as the server sees it. */
  class Connection {
    var incoming: seq<byte>      // sent by the client, not read yet
    var script: seq<Round>
    ghost var past: seq<Round>   // the rounds gone through
    ghost var handled: seq<byte> // commands handed to the command processor
    ghost var over: bool         // the last receive gave up on the connection

    constructor (incoming: seq<byte>, script: seq<Round>)
      ensures Valid() && this.incoming == incoming && this.script == script && past == [] && !over
    {
      this.incoming, this.script := incoming, script;
      past, handled, over := [], [], false;
    }

    /** Every command that came has been handled, once and in order. */
    ghost predicate Valid()
      reads this`past, this`handled
    {
      handled == CommandsIn(past)
    }

    /** Receives `len` bytes into `buf`, handling commands as they come; `data` is what it has read. */
    method Recv(buf: array<byte>, len: nat) returns (total: nat, ghost data: seq<byte>)
      requires Valid() && len <= buf.Length
      modifies this, buf
      ensures var o := Move(RoundTurn, old(script), len, |old(incoming)|, false);
        && total == o.count && over == o.cut && script == old(script)[o.used..]
      ensures Valid() && past + script == old(past) + old(script)
      ensures |data| == total && old(incoming) == data + incoming
      ensures Filled(old(buf[..]), buf[..], 0, data)
    {
      total, data, over := 0, [], false;
      var bytesleft := len;
      ghost var done, kept := 0, buf[..];
      ghost var all := Move(RoundTurn, script, len, |incoming|, false);
      FilledNothing(kept, 0);
      while total < len && script != []
        invariant total + bytesleft == len && |data| == total && old(incoming) == data + incoming
        invariant Filled(kept, buf[..], 0, data)
        invariant |past| == |old(past)| + done
        invariant Valid() && past + script == old(past) + old(script) && !over
        invariant Continues(all, total, done, Move(RoundTurn, script, bytesleft, |incoming|, false))
        decreases |script|
      {
        var got, stopped;
        got, stopped, data := RecvRound(buf, total, bytesleft, old(incoming), kept, data, all, done);
        done := done + 1;
        if stopped { break; }
        total := total + got;
        bytesleft := bytesleft - got;
      }
      SameEnd(old(past), old(script), past, script);
    }

    /** The same without a buffer: once there is something to read, reading it into nowhere fails. Nothing
        is taken from the stream. */
    method RecvNowhere(len: nat)
      requires Valid() && len > 0
      modifies this
      ensures var o := Move(NowhereTurn(|old(incoming)|), old(script), len, 0, false);
        over == o.cut && script == old(script)[o.used..]
      ensures Valid() && past + script == old(past) + old(script) && incoming == old(incoming)
    {
      over := false;
      ghost var f, done := NowhereTurn(|incoming|), 0;
      ghost var all := Move(f, script, len, 0, false);
      while script != []
        invariant |past| == |old(past)| + done && incoming == old(incoming)
        invariant Valid() && past + script == old(past) + old(script) && !over
        invariant Continues(all, 0, done, Move(f, script, len, 0, false))
        decreases |script|
      {
        OneTurn(all, 0, done, f, script, len, 0);
        var event := script[0];
        Advance();
        done := done + 1;
        if Breaks(event) || (event.Ready? && event.n > 0 && |incoming| > 0) {
          over := true;
          break;
        }
      }
      SameEnd(old(past), old(script), past, script);
    }

    /** One round of a receive that has read `data` of the stream so far. */
    method RecvRound(buf: array<byte>, total: nat, bytesleft: nat, ghost stream: seq<byte>, ghost kept: seq<byte>,
                     ghost data: seq<byte>, ghost all: Outcome, ghost done: nat)
        returns (got: nat, stopped: bool, ghost now: seq<byte>)
      requires bytesleft > 0 && Continues(all, total, done, Move(RoundTurn, script, bytesleft, |incoming|, false))
      requires Valid() && !over && script != [] && total + bytesleft <= buf.Length
      requires |data| == total && stream == data + incoming && Filled(kept, buf[..], 0, data)
      modifies this, buf
      ensures stopped == over && got <= bytesleft
      ensures if stopped then all == Outcome(total, done + 1, true) && got == 0
        else Continues(all, total + got, done + 1, Move(RoundTurn, script, bytesleft - got, |incoming|, false))
      ensures Valid() && |script| < |old(script)| && past + script == old(past) + old(script)
      ensures |past| == |old(past)| + 1
      ensures |now| == total + got && stream == now + incoming && Filled(kept, buf[..], 0, now)
    {
      ghost var bytes, more := buf[..], [];
      OneTurn(all, total, done, RoundTurn, script, bytesleft, |incoming|);
      got, stopped, more := OneRound(buf, total, bytesleft);
      Assoc(data, more, incoming);
      FilledMore(kept, bytes, buf[..], data, more);
      now := data + more;
    }

    method ReadInto(buf: array<byte>, at: nat, n: nat) returns (ghost data: seq<byte>)
      requires n <= |incoming| && at + n <= buf.Length
      modifies this`incoming, buf
      ensures |data| == n && old(incoming) == data + incoming && Filled(old(buf[..]), buf[..], at, data)
    {
      data := incoming[..n];
      Copy(buf, at, incoming[..n]);
      incoming := incoming[n..];
    }

    /** One round: a command is handled, or bytes are read behind the first `total`. */
    method OneRound(buf: array<byte>, total: nat, bytesleft: nat)
        returns (got: nat, stopped: bool, ghost more: seq<byte>)
      requires Valid() && !over && script != [] && total + bytesleft <= buf.Length
      modifies this, buf
      ensures var turn := RoundTurn(old(script)[0]);
        stopped == over == turn.Stop? && got == Got(turn, bytesleft, |old(incoming)|)
      ensures Valid() && script == old(script)[1..] && past + script == old(past) + old(script)
      ensures |past| == |old(past)| + 1
      ensures |more| == got && old(incoming) == more + incoming && Filled(old(buf[..]), buf[..], total, more)
    {
      var event := script[0];
      FilledNothing(buf[..], total);
      Advance();
      got, more := 0, [];
      if event.Ready? {
        got := Min(event.n, Min(bytesleft, |incoming|));
        more := ReadInto(buf, total, got);
      }
      stopped := Breaks(event);
      over := stopped;
    }

    /** Goes on to the next round; a command is handed to the command processor. */
    method Advance()
      requires Valid() && script != []
      modifies this`script, this`past, this`handled
      ensures Valid() && script == old(script)[1..] && past + script == old(past) + old(script)
      ensures |past| == |old(past)| + 1
    {
      PastNext(past, script);
      var event := script[0];
      past := past + [event];
      script := script[1..];
      if event.Urgent? { handled := handled + [event.command]; }
    }
  }

  lemma SameEnd<T>(a: seq<T>, b: seq<T>, c: seq<T>, d: seq<T>)
    requires c + d == a + b && |a| <= |c|
    ensures |c| - |a| <= |b| && d == b[|c| - |a|..]
  {
    assert (c + d)[|c|..] == d && (a + b)[|c|..] == b[|c| - |a|..];
  }

  lemma PastNext(past: seq<Round>, script: seq<Round>)
    requires script != []
    ensures past + script == (past + [script[0]]) + script[1..]
    ensures CommandsIn(past + [script[0]]) ==
      CommandsIn(past) + if script[0].Urgent? then [script[0].command] else []
  {
    assert (past + [script[0]])[..|past|] == past;
  }

  /** The rounds are gone through in order, and the commands among them handled. */
  ghost predicate Orderly(c: Connection, rounds: seq<Round>)
    reads c
  {
    c.Valid() && c.past + c.script == rounds
  }

  /** From `was` to `now`, data was put in from place `at` on. */
  ghost predicate Filled(was: seq<byte>, now: seq<byte>, at: nat, data: seq<byte>) {
    at + |data| <= |was| && now == was[..at] + data + was[at + |data|..]
  }

  lemma FilledNothing(was: seq<byte>, at: nat)
    requires at <= |was|
    ensures Filled(was, was, at, [])
  {}

  lemma FilledMore(was: seq<byte>, mid: seq<byte>, now: seq<byte>, data: seq<byte>, more: seq<byte>)
    requires Filled(was, mid, 0, data) && Filled(mid, now, |data|, more)
    ensures Filled(was, now, 0, data + more)
  {
    assert mid[..|data|] == data;
    assert mid[|data + more|..] == was[|data + more|..];
  }

  /** What the operating system does with a read: bytes go into the buffer from `at` on. */
  method Copy(buf: array<byte>, at: nat, data: seq<byte>)
    requires at + |data| <= buf.Length
    modifies buf
    ensures Filled(old(buf[..]), buf[..], at, data)
  {
    forall i | 0 <= i < |data| { buf[at + i] := data[i]; }
  }

  /** The bytes that some rounds offer. */
  function Arriving(rounds: seq<Round>): nat {
    if rounds == [] then 0 else (if rounds[0].Ready? then rounds[0].n else 0) + Arriving(rounds[1..])
  }

  lemma {:induction false} ArrivingOffered(rounds: seq<Round>)
    ensures Offered(RoundTurn, rounds) == Arriving(rounds)
  {
    if rounds != [] { ArrivingOffered(rounds[1..]); }
  }

  /** A receive gets what its rounds offer, up to what was asked for and what is there. It gives up at the first
      failed read, shut stream or lost command, or an error condition without a "try again", and at nothing
      else: not at a time-out, a command or a read that would have blocked. */
  lemma ReceiveOutcome(script: seq<Round>, len: nat, avail: nat)
    ensures var o := Move(RoundTurn, script, len, avail, false);
      && o.count == Min(Min(len, avail), Arriving(script[..o.used]))
      && (o.cut <==> o.used > 0 && EndsReceive(script[o.used - 1]))
      && (forall i :: 0 <= i < o.used - 1 ==> !EndsReceive(script[i]))
  {
    var o := Move(RoundTurn, script, len, avail, false);
    MoveCount(RoundTurn, script, len, avail, false);
    MoveEnds(RoundTurn, script, len, avail);
    ArrivingOffered(script[..o.used]);
    forall i | 0 <= i < o.used ensures EndsReceive(script[i]) <==> RoundTurn(script[i]).Stop? {}
  }

  predicate EndsReceive(r: Round) {
    match r
    case UrgentLost | Closed | Failed => true
    case HangUp(again) => !again
    case _ => false
  }

  /** Without a buffer, a receive gives up just so, or as soon as there is something to read. */
  lemma NowhereOutcome(script: seq<Round>, len: nat, avail: nat)
    ensures var o := Move(NowhereTurn(avail), script, len, 0, false);
      && o.count == 0
      && (o.cut <==> o.used > 0 && EndsNowhere(script[o.used - 1], avail))
      && (forall i :: 0 <= i < o.used - 1 ==> !EndsNowhere(script[i], avail))
  {
    var o := Move(NowhereTurn(avail), script, len, 0, false);
    MoveEnds(NowhereTurn(avail), script, len, 0);
    forall i | 0 <= i < o.used ensures EndsNowhere(script[i], avail) <==> NowhereTurn(avail)(script[i]).Stop? {}
  }

  predicate EndsNowhere(r: Round, avail: nat) {
    match r
    case Ready(n) => n > 0 && avail > 0
    case _ => EndsReceive(r)
  }

  // ---------- sending ----------

  datatype SendRound =
    | Idle              // nothing could be sent yet
    | Accepts(n: nat)   // up to n bytes were taken
    | Refused           // the write failed
    | Lost              // an error condition

  function SendTurn(r: SendRound): Turn {
    match r
    case Idle => Pass
    case Accepts(n) => Take(n)
    case _ => Stop
  }

  function Accepted(rounds: seq<SendRound>): nat {
    if rounds == [] then 0 else (if rounds[0].Accepts? then rounds[0].n else 0) + Accepted(rounds[1..])
  }

  lemma {:induction false} AcceptedOffered(rounds: seq<SendRound>)
    ensures Offered(SendTurn, rounds) == Accepted(rounds)
  {
    if rounds != [] { AcceptedOffered(rounds[1..]); }
  }

  /** A send gets out what its rounds accept, and fails at the first write that is refused or lost. */
  lemma SendOutcome(script: seq<SendRound>, len: nat)
    ensures var o := Move(SendTurn, script, len, len, false);
      && o.count == Min(len, Accepted(script[..o.used]))
      && (o.cut <==> o.used > 0 && (script[o.used - 1].Refused? || script[o.used - 1].Lost?))
      && (forall i :: 0 <= i < o.used - 1 ==> !script[i].Refused? && !script[i].Lost?)
  {
    var o := Move(SendTurn, script, len, len, false);
    MoveCount(SendTurn, script, len, len, false);
    MoveEnds(SendTurn, script, len, len);
    AcceptedOffered(script[..o.used]);
    forall i | 0 <= i < o.used
      ensures script[i].Refused? || script[i].Lost? <==> SendTurn(script[i]).Stop?
    {}
  }

  class Wire {
    var sent: seq<byte>
    var script: seq<SendRound>
    ghost var past: seq<SendRound>  // the rounds gone through

    constructor (script: seq<SendRound>)
      ensures this.sent == [] && this.script == script && past == []
    {
      sent, this.script, past := [], script, [];
    }

    /** Sends a buffer; 0 for success (also when leaving early), -1 for failure. */
    method Send(buf: seq<byte>) returns (r: int)
      modifies this
      ensures var o := Move(SendTurn, old(script), |buf|, |buf|, false);
        && sent == old(sent) + buf[..o.count] && script == old(script)[o.used..]
        && r == if o.cut then -1 else 0
    {
      var total: nat, retval := 0, 0;
      ghost var done := 0;
      ghost var all := Move(SendTurn, script, |buf|, |buf|, false);
      while total < |buf| && script != []
        invariant total <= |buf| && retval != -1 && sent == old(sent) + buf[..total]
        invariant past + script == old(past) + old(script) && |past| == |old(past)| + done
        invariant Continues(all, total, done, Move(SendTurn, script, |buf| - total, |buf| - total, false))
        decreases |script|
      {
        retval := TrySend(buf, total, all, done);
        done := done + 1;
        if retval == -1 { break; }
        NextPart(old(sent), buf, total, retval);
        total := total + retval;
      }
      SameEnd(old(past), old(script), past, script);
      r := if retval == -1 then -1 else 0;
    }

    /** One round: the bytes that were taken, or -1. */
    method TrySend(buf: seq<byte>, total: nat, ghost all: Outcome, ghost done: nat) returns (retval: int)
      requires script != [] && total < |buf|
      requires Continues(all, total, done, Move(SendTurn, script, |buf| - total, |buf| - total, false))
      modifies this
      ensures |script| < |old(script)| && past + script == old(past) + old(script) && |past| == |old(past)| + 1
      ensures -1 <= retval <= |buf| - total
      ensures if retval == -1 then all == Outcome(total, done + 1, true)
        else var left := |buf| - total - retval;
          Continues(all, total + retval, done + 1, Move(SendTurn, script, left, left, false))
      ensures sent == old(sent) + if retval == -1 then [] else buf[total..total + retval]
    {
      OneTurn(all, total, done, SendTurn, script, |buf| - total, |buf| - total);
      Assoc(past, [script[0]], script[1..]);
      var event := script[0];
      past := past + [event];
      script := script[1..];
      retval := 0;
      if event.Accepts? {
        retval := Min(event.n, |buf| - total);
      } else if event.Refused? || event.Lost? {
        retval := -1;
      }
      if retval > 0 { sent := sent + buf[total..total + retval]; }
    }
  }

  lemma NextPart(before: seq<byte>, buf: seq<byte>, total: nat, k: nat)
    requires total + k <= |buf|
    ensures before + buf[..total] + buf[total..total + k] == before + buf[..total + k]
  {
    assert buf[..total] + buf[total..total + k] == buf[..total + k];
    Assoc(before, buf[..total], buf[total..total + k]);
  }

  // ---------- the client's end ----------

  /** One round of the client's receiving loop. */
  datatype ReadRound =
    | Nothing         // poll timed out, failed or reported something else
    | Readable(n: nat)
    | Ended           // end of stream or a read error

  function ReadTurn(r: ReadRound): Turn {
    match r
    case Nothing => Pass
    case Readable(n) => Take(n)
    case Ended => Stop
  }

  function Offering(rounds: seq<ReadRound>): nat {
    if rounds == [] then 0 else (if rounds[0].Readable? then rounds[0].n else 0) + Offering(rounds[1..])
  }

  lemma {:induction false} OfferingOffered(rounds: seq<ReadRound>)
    ensures Offered(ReadTurn, rounds) == Offering(rounds)
  {
    if rounds != [] { OfferingOffered(rounds[1..]); }
  }

  /** The client's receive gets what its rounds offer, and ends early at the end of the stream, at an error, or
      at a read that finds nothing. */
  lemma InletOutcome(script: seq<ReadRound>, len: nat, avail: nat)
    ensures var o := Move(ReadTurn, script, len, avail, true);
      && o.count == Min(Min(len, avail), Offering(script[..o.used]))
      && (o.cut ==> o.used > 0 && EndsInlet(script[o.used - 1], avail - o.count))
      && (o.used > 0 && EndsInlet(script[o.used - 1], 1) ==> o.cut)
  {
    MoveCount(ReadTurn, script, len, avail, true);
    OfferingOffered(script[..Move(ReadTurn, script, len, avail, true).used]);
    InletEnds(script, len, avail);
  }

  /** The round ends a receive while `avail` bytes are there. */
  predicate EndsInlet(r: ReadRound, avail: nat) {
    match r
    case Nothing => false
    case Readable(n) => n == 0 || avail == 0
    case Ended => true
  }

  lemma {:induction false} InletEnds(script: seq<ReadRound>, len: nat, avail: nat)
    ensures var o := Move(ReadTurn, script, len, avail, true);
      && (o.cut ==> o.used > 0 && EndsInlet(script[o.used - 1], avail - o.count))
      && (o.used > 0 && EndsInlet(script[o.used - 1], 1) ==> o.cut)
    decreases |script|
  {
    if len > 0 && script != [] && !script[0].Ended? {
      var got := Got(ReadTurn(script[0]), len, avail);
      InletEnds(script[1..], len - got, avail - got);
    }
  }

  /** What the daemon has sent to a client. */
  class Inlet {
    var incoming: seq<byte>
    var script: seq<ReadRound>
    ghost var past: seq<ReadRound>  // the rounds gone through

    constructor (incoming: seq<byte>, script: seq<ReadRound>)
      ensures this.incoming == incoming && this.script == script && past == []
    {
      this.incoming, this.script, past := incoming, script, [];
    }

    method Recv(len: nat) returns (buf: seq<byte>)
      modifies this
      ensures var o := Move(ReadTurn, old(script), len, |old(incoming)|, true);
        |buf| == o.count && script == old(script)[o.used..]
      ensures old(incoming) == buf + incoming
    {
      buf := [];
      var bytesleft := len;
      ghost var done := 0;
      ghost var all := Move(ReadTurn, script, len, |incoming|, true);
      while |buf| < len && script != []
        invariant bytesleft >= 0 && |buf| + bytesleft == len && old(incoming) == buf + incoming
        invariant past + script == old(past) + old(script) && |past| == |old(past)| + done
        invariant Continues(all, |buf|, done, Move(ReadTurn, script, bytesleft, |incoming|, true))
        decreases |script|
      {
        var more, stopped := ReadOnce(bytesleft, all, |buf|, done);
        done := done + 1;
        if stopped { break; }
        Assoc(buf, more, incoming);
        buf := buf + more;
        bytesleft := bytesleft - |more|;
      }
      SameEnd(old(past), old(script), past, script);
    }

    /** One round: the bytes that were read, and whether that ends the loop. */
    method ReadOnce(bytesleft: nat, ghost all: Outcome, ghost total: nat, ghost done: nat)
        returns (more: seq<byte>, stopped: bool)
      requires script != [] && bytesleft > 0
      requires Continues(all, total, done, Move(ReadTurn, script, bytesleft, |incoming|, true))
      modifies this
      ensures |script| < |old(script)| && past + script == old(past) + old(script) && |past| == |old(past)| + 1
      ensures old(incoming) == more + incoming && |more| <= bytesleft
      ensures if stopped then all == Outcome(total, done + 1, true) && incoming == old(incoming)
        else Continues(all, total + |more|, done + 1, Move(ReadTurn, script, bytesleft - |more|, |incoming|, true))
    {
      Assoc(past, [script[0]], script[1..]);
      var event := script[0];
      past := past + [event];
      script := script[1..];
      more, stopped := [], false;
      if event.Readable? {
        var got := Min(event.n, Min(bytesleft, |incoming|));
        if got < 1 { stopped := true; return; }
        more := incoming[..got];
        incoming := incoming[got..];
      } else if event.Ended? {
        stopped := true;
      }
    }
  }
}
