/**
Key presses: the daemon's filter and routing, takeover by a remote handler, and the edge detector that
turns key masks into key-down and key-up events for the operating system.
*/
module Keys {
  import opened Sequences

  /** Keys by number: G1 to G18, then M1, M2, M3 and MR, then L1 to L5; any further bit (such as the
      light key's) is not mapped to a code. A mask is the set of keys that are down. */
  type Mask = set<nat>

  const MKEYS: nat := 18
  const LKEYS: nat := 22
  const KEYS: nat := 27
  const GKEY_OFFSET: nat := 167
  const MKEY_OFFSET: nat := 185
  const LKEY_OFFSET: nat := 189

  function Code(k: nat): nat {
    if k < MKEYS then GKEY_OFFSET + k
    else if k < LKEYS then MKEY_OFFSET + (k - MKEYS)
    else LKEY_OFFSET + (k - LKEYS)
  }

  datatype KeyEvent = KeyEvent(code: nat, down: bool)

  // ---------- the edge detector ----------

  /** How many keys are mapped: the L keys only if the user wants them. */
  function KeyCount(mapL: bool): nat {
    if mapL then KEYS else LKEYS
  }

  /** What changed at key `k`. */
  function Edge(last: Mask, now: Mask, k: nat): seq<KeyEvent> {
    if k in now && k !in last then [KeyEvent(Code(k), true)]
    else if k !in now && k in last then [KeyEvent(Code(k), false)]
    else []
  }

  /** `events`, followed by those for the keys below `n`, in key order. */
  function Pass(events: seq<KeyEvent>, last: Mask, now: Mask, n: nat): seq<KeyEvent> {
    if n == 0 then events else Pass(events, last, now, n - 1) + Edge(last, now, n - 1)
  }

  /** The operating system's view: the codes held down after some events. */
  function Held(events: seq<KeyEvent>): set<nat> {
    if events == [] then {}
    else
      var e := events[|events| - 1];
      var before := Held(events[..|events| - 1]);
      if e.down then before + {e.code} else before - {e.code}
  }

  /** Every code's events alternate, beginning with a press. */
  predicate Alternates(events: seq<KeyEvent>) {
    events == [] ||
    var e := events[|events| - 1];
    var before := events[..|events| - 1];
    Alternates(before) && (e.down <==> e.code !in Held(before))
  }

  /** The codes of the keys of a mask below `n`. */
  function Image(m: Mask, n: nat): set<nat> {
    set k | 0 <= k < n && k in m :: Code(k)
  }

  lemma CodeInjective(j: nat, k: nat)
    ensures Code(j) == Code(k) <==> j == k
  {}

  /** The codes held half-way through a pass: the new mask's below key `k`, the old mask's from there on. */
  function Mixed(last: Mask, now: Mask, k: nat, n: nat): set<nat> {
    set j | 0 <= j < n && (if j < k then j in now else j in last) :: Code(j)
  }

  lemma MixedStep(last: Mask, now: Mask, k: nat, n: nat)
    requires k < n
    ensures Mixed(last, now, k + 1, n) ==
      if k in now && k !in last then Mixed(last, now, k, n) + {Code(k)}
      else if k !in now && k in last then Mixed(last, now, k, n) - {Code(k)}
      else Mixed(last, now, k, n)
    ensures Code(k) in Mixed(last, now, k, n) <==> k in last
  {
    forall j: nat ensures Code(j) == Code(k) <==> j == k { CodeInjective(j, k); }
    var a, b := Mixed(last, now, k, n), Mixed(last, now, k + 1, n);
    forall c | c != Code(k) ensures c in a <==> c in b {
      if c in a {
        var j :| 0 <= j < n && (if j < k then j in now else j in last) && Code(j) == c;
        assert j != k && c in b;
      }
      if c in b {
        var j :| 0 <= j < n && (if j < k + 1 then j in now else j in last) && Code(j) == c;
        assert j != k && c in a;
      }
    }
  }

  /** The events alternate and leave exactly these codes held. */
  predicate Tracks(events: seq<KeyEvent>, codes: set<nat>) {
    Alternates(events) && Held(events) == codes
  }

  lemma Emit(events: seq<KeyEvent>, e: KeyEvent)
    ensures Held(events + [e]) == if e.down then Held(events) + {e.code} else Held(events) - {e.code}
    ensures Alternates(events + [e]) <==> Alternates(events) && (e.down <==> e.code !in Held(events))
  {
    assert (events + [e])[..|events|] == events;
  }

  lemma EdgeApplies(events: seq<KeyEvent>, last: Mask, now: Mask, k: nat, n: nat)
    requires k < n && Tracks(events, Mixed(last, now, k, n))
    ensures Tracks(events + Edge(last, now, k), Mixed(last, now, k + 1, n))
  {
    MixedStep(last, now, k, n);
    if k in now && k !in last {
      Emit(events, KeyEvent(Code(k), true));
    } else if k !in now && k in last {
      Emit(events, KeyEvent(Code(k), false));
    } else {
      assert events + Edge(last, now, k) == events;
    }
  }

  lemma NothingMixed(last: Mask, now: Mask, n: nat)
    ensures Mixed(last, now, 0, n) == Image(last, n)
  {}

  /** A pass over the keys turns the codes held for the old mask into those of the new one. */
  lemma {:induction false} PassApplies(events: seq<KeyEvent>, last: Mask, now: Mask, k: nat, n: nat)
    requires k <= n && Tracks(events, Image(last, n))
    ensures Tracks(Pass(events, last, now, k), Mixed(last, now, k, n))
  {
    if k == 0 {
      NothingMixed(last, now, n);
    } else {
      PassApplies(events, last, now, k - 1, n);
      PassStep(events, last, now, k - 1, n);
    }
  }

  lemma PassStep(events: seq<KeyEvent>, last: Mask, now: Mask, k: nat, n: nat)
    requires k < n && Tracks(Pass(events, last, now, k), Mixed(last, now, k, n))
    ensures Tracks(Pass(events, last, now, k + 1), Mixed(last, now, k + 1, n))
  {
    EdgeApplies(Pass(events, last, now, k), last, now, k, n);
  }

  /** All events for a sequence of delivered masks, the keyboard starting with nothing pressed. */
  function EventsOver(masks: seq<Mask>, n: nat): seq<KeyEvent> {
    if masks == [] then []
    else
      var before := masks[..|masks| - 1];
      Pass(EventsOver(before, n), LastMask(before), masks[|masks| - 1], n)
  }

  function LastMask(masks: seq<Mask>): Mask {
    if masks == [] then {} else masks[|masks| - 1]
  }

  /** Whatever masks are delivered: each code's events alternate, starting with a press, and the codes
      the operating system holds are exactly those of the last mask. */
  lemma {:induction false} EventsFollowMasks(masks: seq<Mask>, n: nat)
    ensures Tracks(EventsOver(masks, n), Image(LastMask(masks), n))
  {
    if masks != [] {
      var before := masks[..|masks| - 1];
      EventsFollowMasks(before, n);
      PassApplies(EventsOver(before, n), LastMask(before), LastMask(masks), n, n);
      assert Mixed(LastMask(before), LastMask(masks), n, n) == Image(LastMask(masks), n);
    }
  }

  // ---------- routing ----------

  /** What is on display: a screen without a listener (the bare clock), a local plugin, or a client by
      its socket. */
  datatype Front = Bare | Local | Client(sock: nat)

  datatype Out =
    | ToClient(sock: nat, mask: Mask)
    | ToOs(mask: Mask)
    | CycleScreens
    | NoListener   // the code would call through a null pointer

  datatype Router = Router(
    cycleKey: nat,
    osHandler: bool,      // an operating-system keyboard plugin is loaded
    lastkeys: Mask,
    clicktime: nat,
    remote: nat,          // the remote handler's socket, or 0
    socks: set<nat>)      // the sockets of connected clients

  datatype Input =
    | Press(mask: Mask, front: Front, time: nat)
    | Connect(sock: nat)
    | TakeOver(sock: nat)
    | Disconnect(sock: nat)

  const UINT: nat := 0x1_0000_0000

  /** What the listener of the screen on display passes on. */
  function Listen(r: Router, front: Front, mask: Mask): seq<Out> {
    if front.Client? && front.sock != 0 && front.sock != r.remote then [ToClient(front.sock, mask)] else []
  }

  /** An ordinary key event. */
  function Deliver(r: Router, front: Front, mask: Mask): seq<Out> {
    Listen(r, front, mask) +
    (if r.osHandler && r.remote == 0 then [ToOs(mask)] else []) +
    (if r.remote != 0 then [ToClient(r.remote, mask)] else [])
  }

  predicate Ordinary(r: Router, mask: Mask) {
    r.cycleKey !in mask && r.cycleKey !in r.lastkeys
  }

  function Outputs(r: Router, input: Input): seq<Out> {
    match input
    case Press(mask, front, time) =>
      if Ordinary(r, mask) then
        if front.Bare? then [] else Deliver(r, front, mask)
      else if r.cycleKey in mask then []
      else if (time + UINT - r.clicktime % UINT) % UINT < 500 then [CycleScreens]
      else if front.Bare? then [NoListener]
      else Listen(r, front, mask + {r.cycleKey}) + Listen(r, front, mask - {r.cycleKey})
    case _ => []
  }

  function Next(r: Router, input: Input): Router {
    match input
    case Press(mask, front, time) =>
      if Ordinary(r, mask) then
        if front.Bare? then r else r.(lastkeys := mask)
      else if r.cycleKey in mask then r.(lastkeys := mask, clicktime := time % UINT)
      else r.(lastkeys := mask)
    case Connect(sock) => r.(socks := r.socks + {sock})
    case TakeOver(sock) => r.(remote := sock)
    case Disconnect(sock) =>
      r.(socks := r.socks - {sock}, remote := if r.remote == sock then 0 else r.remote)
  }

  /** Sockets are numbered from one and given out to one client at a time; only connected clients take
      over, are on display or go. */
  predicate Enabled(r: Router, input: Input) {
    match input
    case Press(mask, front, time) => front.Client? ==> front.sock in r.socks
    case Connect(sock) => sock != 0 && sock !in r.socks
    case TakeOver(sock) => sock in r.socks
    case Disconnect(sock) => sock in r.socks
  }

  predicate Possible(r: Router, inputs: seq<Input>)
    decreases |inputs|
  {
    inputs == [] || (Enabled(r, inputs[0]) && Possible(Next(r, inputs[0]), inputs[1..]))
  }

  function Run(r: Router, inputs: seq<Input>): Router
    decreases |inputs|
  {
    if inputs == [] then r else Run(Next(r, inputs[0]), inputs[1..])
  }

  predicate Sound(r: Router) {
    0 !in r.socks && (r.remote == 0 || r.remote in r.socks)
  }

  /** Over every run the remote handler is nobody or a connected client. */
  lemma {:induction false} HandlerIsConnected(r: Router, inputs: seq<Input>)
    requires Sound(r) && Possible(r, inputs)
    ensures Sound(Run(r, inputs))
    decreases |inputs|
  {
    if inputs != [] { HandlerIsConnected(Next(r, inputs[0]), inputs[1..]); }
  }

  /** Over every run: a key event is an ordinary one if and only if the cycle key is down neither in it nor in
      the key event before it, even if that one was dropped. */
  lemma {:induction false} OrdinaryIff(r: Router, inputs: seq<Input>, mask: Mask)
    requires r.cycleKey !in r.lastkeys
    ensures Ordinary(Run(r, inputs), mask) <==> r.cycleKey !in mask && r.cycleKey !in LastPressed(inputs)
    ensures Run(r, inputs).cycleKey == r.cycleKey
  {
    if inputs != [] {
      var before, last := inputs[..|inputs| - 1], inputs[|inputs| - 1];
      assert inputs == before + [last];
      RunSnoc(r, before, last);
      OrdinaryIff(r, before, if last.Press? then last.mask else mask);
    }
  }

  /** Nothing is sent to a client that has gone, until a client connects by the same socket. */
  lemma {:induction false} GoneGetsNothing(r: Router, inputs: seq<Input>, sock: nat)
    requires Sound(r) && sock !in r.socks && Possible(r, inputs) && Connect(sock) !in inputs
    ensures forall o :: o in Sent(r, inputs) ==> !(o.ToClient? && o.sock == sock)
    decreases |inputs|
  {
    if inputs != [] {
      HandlerIsConnected(r, [inputs[0]]);
      GoneGetsNothing(Next(r, inputs[0]), inputs[1..], sock);
    }
  }

  /** The last time a client connected or went. */
  function Stays(inputs: seq<Input>, sock: nat, before: bool): bool {
    if inputs == [] then before
    else
      var last := inputs[|inputs| - 1];
      if last == Connect(sock) then true
      else if last == Disconnect(sock) then false
      else Stays(inputs[..|inputs| - 1], sock, before)
  }

  /** Over every run a client is connected exactly if it has connected and not gone since. */
  lemma {:induction false} ConnectedIff(r: Router, inputs: seq<Input>, sock: nat)
    ensures sock in Run(r, inputs).socks <==> Stays(inputs, sock, sock in r.socks)
  {
    if inputs != [] {
      var before, last := inputs[..|inputs| - 1], inputs[|inputs| - 1];
      assert inputs == before + [last];
      RunSnoc(r, before, last);
      ConnectedIff(r, before, sock);
    }
  }

  /** A client that takes over is the remote handler until it goes, or another takes over; when it goes there is
      none. */
  lemma HandlerStays(r: Router, inputs: seq<Input>, sock: nat)
    requires forall i :: 0 <= i < |inputs| ==> !inputs[i].TakeOver? && inputs[i] != Disconnect(sock)
    ensures Run(r, [TakeOver(sock)] + inputs).remote == sock
    ensures Run(r, [TakeOver(sock)] + inputs + [Disconnect(sock)]).remote == 0
  {
    var all := [TakeOver(sock)] + inputs;
    assert all[1..] == inputs;
    RemoteKept(Next(r, TakeOver(sock)), inputs);
    RunSnoc(r, all, Disconnect(sock));
  }

  lemma {:induction false} RemoteKept(r: Router, inputs: seq<Input>)
    requires forall i :: 0 <= i < |inputs| ==> !inputs[i].TakeOver? && inputs[i] != Disconnect(r.remote)
    ensures Run(r, inputs).remote == r.remote
    decreases |inputs|
  {
    if inputs != [] { RemoteKept(Next(r, inputs[0]), inputs[1..]); }
  }

  function Copies(outs: seq<Out>, o: Out): nat {
    if outs == [] then 0 else (if outs[0] == o then 1 else 0) + Copies(outs[1..], o)
  }

  lemma {:induction false} CopiesConcat(a: seq<Out>, b: seq<Out>, o: Out)
    ensures Copies(a + b, o) == Copies(a, o) + Copies(b, o)
  {
    if a == [] {
      assert a + b == b;
    } else {
      assert (a + b)[1..] == a[1..] + b;
      CopiesConcat(a[1..], b, o);
    }
  }

  lemma DeliverCopies(r: Router, front: Front, mask: Mask, o: Out)
    ensures Copies(Deliver(r, front, mask), o) ==
      Copies(Listen(r, front, mask), o)
      + (if r.osHandler && r.remote == 0 && o == ToOs(mask) then 1 else 0)
      + (if r.remote != 0 && o == ToClient(r.remote, mask) then 1 else 0)
  {
    var os := if r.osHandler && r.remote == 0 then [ToOs(mask)] else [];
    var remote := if r.remote != 0 then [ToClient(r.remote, mask)] else [];
    CopiesConcat(Listen(r, front, mask) + os, remote, o);
    CopiesConcat(Listen(r, front, mask), os, o);
  }

  /** An ordinary key event reaches the remote handler once, even when it is on display too, the client
      on display once, no other client, and the operating system exactly if nobody has taken over. */
  lemma OrdinaryKeyOnce(r: Router, mask: Mask, front: Front, time: nat, o: Out)
    requires Sound(r) && Ordinary(r, mask) && !front.Bare? && Enabled(r, Press(mask, front, time))
    ensures Copies(Outputs(r, Press(mask, front, time)), o) ==
      match o
      case ToClient(sock, m) => if m == mask && sock != 0 && (sock == r.remote || front == Client(sock)) then 1 else 0
      case ToOs(m) => if m == mask && r.osHandler && r.remote == 0 then 1 else 0
      case _ => 0
  {
    DeliverCopies(r, front, mask, o);
  }

  predicate WithoutCycleKey(r: Router, o: Out) {
    o.ToOs? || (o.ToClient? && o.sock == r.remote) ==> r.cycleKey !in o.mask
  }

  /** Neither the operating system nor a remote handler is ever sent the cycle key. */
  lemma CycleKeyFiltered(r: Router, input: Input, o: Out)
    requires o in Outputs(r, input)
    ensures WithoutCycleKey(r, o)
  {}

  function OsMasks(outs: seq<Out>): seq<Mask> {
    if outs == [] then []
    else (if outs[0].ToOs? then [outs[0].mask] else []) + OsMasks(outs[1..])
  }

  lemma {:induction false} OsMasksFiltered(r: Router, outs: seq<Out>)
    requires forall o :: o in outs ==> WithoutCycleKey(r, o)
    ensures forall m :: m in OsMasks(outs) ==> r.cycleKey !in m
  {
    if outs != [] {
      assert WithoutCycleKey(r, outs[0]);
      OsMasksFiltered(r, outs[1..]);
    }
  }

  /** The masks the operating system's keyboard receives over a run. */
  function Received(r: Router, inputs: seq<Input>): seq<Mask>
    decreases |inputs|
  {
    if inputs == [] then [] else OsMasks(Outputs(r, inputs[0])) + Received(Next(r, inputs[0]), inputs[1..])
  }

  lemma {:induction false} RunNeverHoldsCycleKey(r: Router, inputs: seq<Input>)
    ensures forall m :: m in Received(r, inputs) ==> r.cycleKey !in m
    decreases |inputs|
  {
    if inputs != [] {
      var outs := Outputs(r, inputs[0]);
      forall o | o in outs ensures WithoutCycleKey(r, o) { CycleKeyFiltered(r, inputs[0], o); }
      OsMasksFiltered(r, outs);
      assert Next(r, inputs[0]).cycleKey == r.cycleKey;
      RunNeverHoldsCycleKey(Next(r, inputs[0]), inputs[1..]);
    }
  }

  /** Filter and edge detector together, over every run of presses, takeovers and disconnects: the
      operating system sees presses and releases in turn, and never holds the cycle key's code. */
  lemma OsKeyboard(r: Router, inputs: seq<Input>, n: nat)
    requires r.cycleKey < n
    ensures var events := EventsOver(Received(r, inputs), n);
      && Tracks(events, Image(LastMask(Received(r, inputs)), n))
      && Code(r.cycleKey) !in Held(events)
  {
    var masks := Received(r, inputs);
    EventsFollowMasks(masks, n);
    RunNeverHoldsCycleKey(r, inputs);
    forall j: nat ensures Code(j) == Code(r.cycleKey) <==> j == r.cycleKey { CodeInjective(j, r.cycleKey); }
  }

  // ---------- the cycle key ----------

  /** Everything sent over a run. */
  function Sent(r: Router, inputs: seq<Input>): seq<Out>
    decreases |inputs|
  {
    if inputs == [] then [] else Outputs(r, inputs[0]) + Sent(Next(r, inputs[0]), inputs[1..])
  }

  /** The cycle key is down in every key event. */
  predicate Holding(r: Router, inputs: seq<Input>) {
    forall i :: 0 <= i < |inputs| && inputs[i].Press? ==> r.cycleKey in inputs[i].mask
  }

  /** The time of the last key event, if there is one. */
  function LastTime(inputs: seq<Input>, before: nat): nat {
    if inputs == [] then before
    else LastTime(inputs[1..], if inputs[0].Press? then inputs[0].time else before)
  }

  /** While the cycle key is held nothing is sent, and the clock is restarted with every key event. */
  lemma {:induction false} HoldingIsSilent(r: Router, inputs: seq<Input>)
    requires Holding(r, inputs)
    ensures Sent(r, inputs) == [] && Run(r, inputs).cycleKey == r.cycleKey
    ensures Run(r, inputs).clicktime % UINT == LastTime(inputs, r.clicktime) % UINT
    ensures r.cycleKey in r.lastkeys ==> r.cycleKey in Run(r, inputs).lastkeys
    decreases |inputs|
  {
    if inputs != [] {
      HoldingIsSilent(Next(r, inputs[0]), inputs[1..]);
      LastTimeWraps(inputs[1..], Next(r, inputs[0]).clicktime,
                    if inputs[0].Press? then inputs[0].time else r.clicktime);
    }
  }

  lemma {:induction false} LastTimeWraps(inputs: seq<Input>, a: nat, b: nat)
    requires a % UINT == b % UINT
    ensures LastTime(inputs, a) % UINT == LastTime(inputs, b) % UINT
  {
    if inputs != [] && !inputs[0].Press? { LastTimeWraps(inputs[1..], a, b); }
  }

  lemma {:induction false} SentSnoc(r: Router, inputs: seq<Input>, input: Input)
    ensures Sent(r, inputs + [input]) == Sent(r, inputs) + Outputs(Run(r, inputs), input)
    decreases |inputs|
  {
    if inputs == [] {
      assert [] + [input] == [input] && [input][1..] == [];
    } else {
      assert (inputs + [input])[1..] == inputs[1..] + [input];
      SentSnoc(Next(r, inputs[0]), inputs[1..], input);
      Assoc(Outputs(r, inputs[0]), Sent(Next(r, inputs[0]), inputs[1..]), Outputs(Run(r, inputs), input));
    }
  }

  /** The cycle key goes down, whatever happens while it is held, and it comes up `held` milliseconds after the
      last key event, on a counter that wraps. If that is less than half a second the screens are cycled, and
      nothing else happens; otherwise the client on display, if it is not the remote handler, gets the keys
      that are down with the cycle key, and then without it. */
  lemma CycleKeyClick(r: Router, inputs: seq<Input>, up: Mask, front: Front, held: nat)
    requires inputs != [] && inputs[0].Press? && Holding(r, inputs) && r.cycleKey !in up && held < 0x1_0000_0000
    ensures
      var release := Press(up, front, (LastTime(inputs, 0) + held) % 0x1_0000_0000);
      Sent(r, inputs + [release]) ==
        if held < 500 then [CycleScreens]
        else match front
          case Bare => [NoListener]
          case Local => []
          case Client(sock) =>
            if sock == 0 || sock == Run(r, inputs).remote then []
            else [ToClient(sock, up + {r.cycleKey}), ToClient(sock, up)]
  {
    var time := (LastTime(inputs, 0) + held) % UINT;
    HeldDown(r, inputs);
    Elapsed(Run(r, inputs).clicktime, LastTime(inputs, 0), held);
    SentSnoc(r, inputs, Press(up, front, time));
    ReleaseOutputs(Run(r, inputs), up, front, time);
  }

  lemma HeldDown(r: Router, inputs: seq<Input>)
    requires inputs != [] && inputs[0].Press? && Holding(r, inputs)
    ensures var s := Run(r, inputs);
      && Sent(r, inputs) == [] && s.cycleKey == r.cycleKey && r.cycleKey in s.lastkeys
      && s.clicktime % UINT == LastTime(inputs, 0) % UINT
  {
    HoldingIsSilent(r, inputs);
    HoldingIsSilent(Next(r, inputs[0]), inputs[1..]);
    assert LastTime(inputs, 0) == LastTime(inputs, r.clicktime);
  }

  /** What the release of the cycle key does. */
  lemma ReleaseOutputs(r: Router, up: Mask, front: Front, time: nat)
    requires r.cycleKey in r.lastkeys && r.cycleKey !in up
    ensures Outputs(r, Press(up, front, time)) ==
      if (time + UINT - r.clicktime % UINT) % UINT < 500 then [CycleScreens]
      else match front
        case Bare => [NoListener]
        case Local => []
        case Client(sock) =>
          if sock == 0 || sock == r.remote then []
          else [ToClient(sock, up + {r.cycleKey}), ToClient(sock, up)]
  {
    assert up - {r.cycleKey} == up;
  }

  lemma Elapsed(clicktime: nat, start: nat, held: nat)
    requires clicktime % UINT == start % UINT && held < UINT
    ensures ((start + held) % UINT + UINT - clicktime % UINT) % UINT == held
  {
    var s := start % UINT;
    assert (start + held) % UINT == (s + held) % UINT by { assert start == start / UINT * UINT + s; }
    if s + held < UINT {
      assert (s + held) % UINT + UINT - s == held + UINT;
    } else {
      assert (s + held) % UINT == s + held - UINT;
    }
  }

  // ---------- what the operating system holds ----------

  /** The keys that are down: the mask of the last press event. */
  function LastPressed(inputs: seq<Input>): Mask {
    if inputs == [] then {}
    else
      var last := inputs[|inputs| - 1];
      if last.Press? then last.mask else LastPressed(inputs[..|inputs| - 1])
  }

  /** The press event reaches the operating system's keyboard. */
  predicate Delivered(r: Router, input: Input) {
    input.Press? && Ordinary(r, input.mask) && !input.front.Bare? && r.osHandler && r.remote == 0
  }

  /** The masks agree on every mapped key but the cycle key. */
  predicate SameKeys(a: Mask, b: Mask, cycleKey: nat, n: nat) {
    forall k :: 0 <= k < n && k != cycleKey ==> (k in a <==> k in b)
  }

  /** The event is delivered, or no mapped key has changed. */
  predicate KeepsUp(r: Router, pressed: Mask, input: Input, n: nat) {
    input.Press? ==> Delivered(r, input) || SameKeys(input.mask, pressed, r.cycleKey, n)
  }

  /** The operating system holds exactly the keys that are down, the cycle key apart. */
  predicate InStep(r: Router, inputs: seq<Input>, n: nat) {
    Held(EventsOver(Received(r, inputs), n)) == Image(LastPressed(inputs) - {r.cycleKey}, n)
  }

  /** What an event tells the operating system's keyboard. */
  function Told(r: Router, input: Input): seq<Mask> {
    if Delivered(r, input) then [input.mask] else []
  }

  lemma OsMasksOf(r: Router, input: Input)
    ensures OsMasks(Outputs(r, input)) == Told(r, input)
  {
    if input.Press? && !Ordinary(r, input.mask) {
      NoOsMask(r, input);
    } else if input.Press? && !input.front.Bare? {
      var listen := Listen(r, input.front, input.mask);
      var os := if r.osHandler && r.remote == 0 then [ToOs(input.mask)] else [];
      var remote := if r.remote != 0 then [ToClient(r.remote, input.mask)] else [];
      OsMasksConcat(listen + os, remote);
      OsMasksConcat(listen, os);
    }
  }

  lemma NoOsMask(r: Router, input: Input)
    requires input.Press? && !Ordinary(r, input.mask)
    ensures OsMasks(Outputs(r, input)) == []
  {
    var front, key := input.front, r.cycleKey;
    OsMasksConcat(Listen(r, front, input.mask + {key}), Listen(r, front, input.mask - {key}));
  }

  lemma {:induction false} OsMasksConcat(a: seq<Out>, b: seq<Out>)
    ensures OsMasks(a + b) == OsMasks(a) + OsMasks(b)
  {
    if a == [] {
      assert a + b == b;
    } else {
      assert (a + b)[1..] == a[1..] + b;
      OsMasksConcat(a[1..], b);
      Assoc(if a[0].ToOs? then [a[0].mask] else [], OsMasks(a[1..]), OsMasks(b));
    }
  }

  lemma {:induction false} RunSnoc(r: Router, inputs: seq<Input>, input: Input)
    ensures Run(r, inputs + [input]) == Next(Run(r, inputs), input)
    ensures Received(r, inputs + [input]) == Received(r, inputs) + OsMasks(Outputs(Run(r, inputs), input))
    ensures Run(r, inputs).cycleKey == r.cycleKey
    decreases |inputs|
  {
    if inputs == [] {
      assert [] + [input] == [input] && [input][1..] == [];
    } else {
      assert (inputs + [input])[1..] == inputs[1..] + [input];
      RunSnoc(Next(r, inputs[0]), inputs[1..], input);
      Assoc(OsMasks(Outputs(r, inputs[0])), Received(Next(r, inputs[0]), inputs[1..]),
            OsMasks(Outputs(Run(r, inputs), input)));
    }
  }

  lemma SameImage(a: Mask, b: Mask, cycleKey: nat, n: nat)
    ensures Image(a - {cycleKey}, n) == Image(b - {cycleKey}, n) <==> SameKeys(a, b, cycleKey, n)
  {
    forall k | 0 <= k < n && k != cycleKey
      ensures Code(k) in Image(a - {cycleKey}, n) <==> k in a
      ensures Code(k) in Image(b - {cycleKey}, n) <==> k in b
    {
      CodeInImage(k, a - {cycleKey}, n);
      CodeInImage(k, b - {cycleKey}, n);
    }
  }

  lemma CodeInImage(k: nat, m: Mask, n: nat)
    requires k < n
    ensures Code(k) in Image(m, n) <==> k in m
  {
    forall j: nat ensures Code(j) == Code(k) <==> j == k { CodeInjective(j, k); }
  }

  lemma OneMoreEvent(r: Router, inputs: seq<Input>, input: Input)
    ensures Received(r, inputs + [input]) == Received(r, inputs) + Told(Run(r, inputs), input)
    ensures LastPressed(inputs + [input]) == if input.Press? then input.mask else LastPressed(inputs)
    ensures Run(r, inputs).cycleKey == r.cycleKey
  {
    assert (inputs + [input])[..|inputs|] == inputs;
    RunSnoc(r, inputs, input);
    OsMasksOf(Run(r, inputs), input);
  }

  /** One more event keeps the operating system in step exactly if it keeps up. */
  lemma InStepNext(r: Router, inputs: seq<Input>, input: Input, n: nat)
    requires InStep(r, inputs, n)
    ensures InStep(r, inputs + [input], n) <==> KeepsUp(Run(r, inputs), LastPressed(inputs), input, n)
  {
    var now, before := Received(r, inputs + [input]), Received(r, inputs);
    OneMoreEvent(r, inputs, input);
    EventsFollowMasks(now, n);
    EventsFollowMasks(before, n);
    if Delivered(Run(r, inputs), input) {
      assert LastMask(now) == input.mask && input.mask - {r.cycleKey} == input.mask;
    } else {
      assert now == before;
      if input.Press? { SameImage(input.mask, LastPressed(inputs), r.cycleKey, n); }
    }
  }

  /** In step after the run, and after every part of it. */
  predicate AlwaysInStep(r: Router, inputs: seq<Input>, n: nat)
    decreases |inputs|
  {
    InStep(r, inputs, n) && (inputs == [] || AlwaysInStep(r, inputs[..|inputs| - 1], n))
  }

  predicate AlwaysKeepsUp(r: Router, inputs: seq<Input>, n: nat)
    decreases |inputs|
  {
    inputs == [] ||
    var before, input := inputs[..|inputs| - 1], inputs[|inputs| - 1];
    KeepsUp(Run(r, before), LastPressed(before), input, n) && AlwaysKeepsUp(r, before, n)
  }

  /** Over every run: in every state the operating system holds exactly the keys that are down, the cycle
      key apart, if and only if every press event that changes a mapped key is an ordinary one, comes
      with a plugin on display, and finds a keyboard plugin loaded and no remote handler. */
  lemma {:induction false} InStepIff(r: Router, inputs: seq<Input>, n: nat)
    ensures AlwaysInStep(r, inputs, n) <==> AlwaysKeepsUp(r, inputs, n)
    decreases |inputs|
  {
    if inputs != [] {
      var before, input := inputs[..|inputs| - 1], inputs[|inputs| - 1];
      assert inputs == before + [input];
      InStepIff(r, before, n);
      if InStep(r, before, n) { InStepNext(r, before, input, n); }
    }
  }

  lemma Unfold(r: Router, input: Input, rest: seq<Input>)
    ensures Received(r, [input] + rest) == OsMasks(Outputs(r, input)) + Received(Next(r, input), rest)
    ensures Possible(r, [input] + rest) <==> Enabled(r, input) && Possible(Next(r, input), rest)
  {
    assert ([input] + rest)[1..] == rest;
  }

  /** The operating system was only ever told that key `k` is down, and the key is up. */
  lemma StaysHeld(r: Router, inputs: seq<Input>, k: nat, n: nat)
    requires Received(r, inputs) == [{k}] && LastPressed(inputs) == {} && k < n
    ensures Held(EventsOver(Received(r, inputs), n)) == {Code(k)} && !AlwaysInStep(r, inputs, n)
  {
    EventsFollowMasks([{k}], n);
    assert Image({k}, n) == {Code(k)};
    assert Code(k) !in Image({}, n);
    assert !InStep(r, inputs, n);
  }

  /** A key that is down when a client takes over stays held after it has been released. */
  lemma HeldThroughTakeOver(r: Router, k: nat, sock: nat, n: nat)
    requires r.osHandler && r.remote == 0 && r.lastkeys == {} && r.cycleKey != k && k < n
    requires sock != 0 && sock in r.socks
    ensures var inputs := [Press({k}, Local, 0), TakeOver(sock), Press({}, Local, 1)];
      && Possible(r, inputs) && !AlwaysInStep(r, inputs, n)
      && Held(EventsOver(Received(r, inputs), n)) == {Code(k)}
  {
    var inputs := [Press({k}, Local, 0), TakeOver(sock), Press({}, Local, 1)];
    ThreeEvents(r, inputs[0], inputs[1], inputs[2]);
    StaysHeld(r, inputs, k, n);
  }

  /** So does a key that is released while the bare clock is on display. */
  lemma HeldUnderTheClock(r: Router, k: nat, n: nat)
    requires r.osHandler && r.remote == 0 && r.lastkeys == {} && r.cycleKey != k && k < n
    ensures var inputs := [Press({k}, Local, 0), Press({}, Bare, 1)];
      && Possible(r, inputs) && !AlwaysInStep(r, inputs, n)
      && Held(EventsOver(Received(r, inputs), n)) == {Code(k)}
  {
    var a, b := Press({k}, Local, 0), Press({}, Bare, 1);
    Unfold(Next(r, a), b, []);
    Unfold(r, a, [b]);
    assert [a] + [b] == [a, b] && [b] + [] == [b];
    OsMasksOf(r, a);
    OsMasksOf(Next(r, a), b);
    StaysHeld(r, [a, b], k, n);
  }

  /** So does a key that is released together with, or while holding, the cycle key. */
  lemma HeldUnderTheCycleKey(r: Router, k: nat, n: nat)
    requires r.osHandler && r.remote == 0 && r.lastkeys == {} && r.cycleKey != k && k < n
    ensures var inputs := [Press({k}, Local, 0), Press({r.cycleKey}, Local, 1), Press({}, Local, 2)];
      && Possible(r, inputs) && !AlwaysInStep(r, inputs, n)
      && Held(EventsOver(Received(r, inputs), n)) == {Code(k)}
  {
    var inputs := [Press({k}, Local, 0), Press({r.cycleKey}, Local, 1), Press({}, Local, 2)];
    ThreeEvents(r, inputs[0], inputs[1], inputs[2]);
    StaysHeld(r, inputs, k, n);
  }

  lemma ThreeEvents(r: Router, a: Input, b: Input, c: Input)
    ensures var r1 := Next(r, a);
      Received(r, [a, b, c]) == Told(r, a) + (Told(r1, b) + Told(Next(r1, b), c))
    ensures var r1 := Next(r, a);
      Possible(r, [a, b, c]) <==> Enabled(r, a) && Enabled(r1, b) && Enabled(Next(r1, b), c)
  {
    var r1 := Next(r, a);
    var r2 := Next(r1, b);
    Unfold(r2, c, []);
    Unfold(r1, b, [c]);
    Unfold(r, a, [b, c]);
    assert [a] + [b, c] == [a, b, c] && [b] + [c] == [b, c] && [c] + [] == [c];
    OsMasksOf(r, a);
    OsMasksOf(r1, b);
    OsMasksOf(r2, c);
  }

  // ---------- key codes ----------

  /** Over every sequence of masks the codes held are those of the keys that are down, numbered on from the
      first G key's; the L keys count only if they are mapped. */
  lemma HeldByCode(masks: seq<Mask>, mapL: bool, c: nat)
    ensures c in Held(EventsOver(masks, KeyCount(mapL))) <==>
      167 <= c < (if mapL then 194 else 189) && c - 167 in LastMask(masks)
  {
    EventsFollowMasks(masks, KeyCount(mapL));
    if 167 <= c { assert Code(c - 167) == c; }
    forall k: nat ensures Code(k) == 167 + k {}
  }

  // ---------- the plugin ----------

  /** The keyboard plugin with its memory of the last mask. */
  class UInput {
    var lastkeys: Mask
    var mapL: bool
    var emitted: seq<KeyEvent>
    ghost var masks: seq<Mask>

    constructor (mapL: bool)
      ensures Valid() && masks == [] && this.mapL == mapL
    {
      lastkeys, this.mapL, emitted, masks := {}, mapL, [], [];
    }

    ghost predicate Valid()
      reads this
    {
      lastkeys == LastMask(masks) && emitted == EventsOver(masks, KeyCount(mapL))
    }

    method KeyPress(current: Mask)
      requires Valid()
      modifies this
      ensures Valid() && masks == old(masks) + [current] && mapL == old(mapL)
      ensures Tracks(emitted, Image(current, KeyCount(mapL)))
    {
      ghost var before, was := emitted, masks;
      var k := 0;
      while k < KeyCount(mapL)
        invariant k <= KeyCount(mapL) && emitted == Pass(before, lastkeys, current, k)
        invariant mapL == old(mapL) && lastkeys == old(lastkeys) && masks == was
      {
        if k in current && k !in lastkeys {
          emitted := emitted + [KeyEvent(Code(k), true)];
        } else if k !in current && k in lastkeys {
          emitted := emitted + [KeyEvent(Code(k), false)];
        }
        k := k + 1;
      }
      lastkeys := current;
      masks := masks + [current];
      assert masks[..|masks| - 1] == was;
      EventsFollowMasks(masks, KeyCount(mapL));
    }
  }
}
