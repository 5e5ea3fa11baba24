/**
The sensor search of the statistics client: which hardware monitor to read, how long to keep trying, and
when to give a screen up.
*/
module Sensors {

  const MAX_SENSOR: nat := 4
  const NUM_PROBES: nat := 4
  const SENSOR_ERROR: int := -100

  /** A reading depends on when it is taken (the number of searches made before), the sensor, the place in
      the file system where it is looked for, and the probe, counted from one. */
  type Reading = (nat, nat, bool, nat) -> int

  /** For each sensor whether the second place is looked at, and how many more failures it is allowed;
      the sensor in use; and whether its screen is shown. */
  datatype Bank = Bank(second: seq<bool>, lost: seq<int>, id: int, have: bool)

  predicate Sized(second: seq<bool>, lost: seq<int>) {
    |second| == MAX_SENSOR && |lost| == MAX_SENSOR && forall i :: 0 <= i < MAX_SENSOR ==> lost[i] >= 0
  }

  predicate Ready(b: Bank) {
    Sized(b.second, b.lost) && 0 <= b.id < MAX_SENSOR
  }

  /** Probe number `k` is the first to fail among those from `k` on; the result counts those before. */
  function Leading(read: Reading, time: nat, id: nat, second: bool, k: nat): (n: nat)
    requires 1 <= k <= NUM_PROBES + 1
    ensures k - 1 <= n <= NUM_PROBES
    ensures forall j :: k <= j <= n ==> read(time, id, second, j) != SENSOR_ERROR
    ensures n == NUM_PROBES || read(time, id, second, n + 1) == SENSOR_ERROR
    decreases NUM_PROBES + 1 - k
  {
    if k > NUM_PROBES || read(time, id, second, k) == SENSOR_ERROR then k - 1
    else Leading(read, time, id, second, k + 1)
  }

  function Place(id: int, k: nat): nat
    requires 0 <= id < MAX_SENSOR && k <= MAX_SENSOR
  {
    if id + k >= MAX_SENSOR then id + k - MAX_SENSOR else id + k
  }

  /** The first sensor with something left, from the `k`th after `id`, in turn and `id` itself last. */
  function FirstLeft(lost: seq<int>, id: int, k: nat): (r: int)
    requires |lost| == MAX_SENSOR && 0 <= id < MAX_SENSOR && 1 <= k <= MAX_SENSOR
    ensures r == SENSOR_ERROR ==> forall j :: k <= j <= MAX_SENSOR ==> lost[Place(id, j)] == 0
    ensures r != SENSOR_ERROR ==>
      exists j :: (k <= j <= MAX_SENSOR && r == Place(id, j) && lost[r] != 0
                   && forall i :: k <= i < j ==> lost[Place(id, i)] == 0)
    decreases MAX_SENSOR - k
  {
    if lost[Place(id, k)] != 0 then
      Place(id, k)
    else if k == MAX_SENSOR then SENSOR_ERROR
    else FirstLeft(lost, id, k + 1)
  }

  lemma NothingLeft(lost: seq<int>, id: int)
    requires |lost| == MAX_SENSOR && 0 <= id < MAX_SENSOR
    ensures FirstLeft(lost, id, 1) == SENSOR_ERROR <==> forall i :: 0 <= i < MAX_SENSOR ==> lost[i] == 0
    ensures FirstLeft(lost, id, 1) != SENSOR_ERROR ==>
      0 <= FirstLeft(lost, id, 1) < MAX_SENSOR && lost[FirstLeft(lost, id, 1)] != 0
  {
    forall i: nat | i < |lost|
      ensures FirstLeft(lost, id, 1) == SENSOR_ERROR ==> lost[i] == 0
    {
      assert Place(id, Turns(id, i)) == i;
    }
  }

  /** In turn: counting up from `id`, round past the last sensor to the first, and to `id` again, the next sensor
      is the first with something left. */
  lemma InTurn(lost: seq<int>, id: int, r: int)
    requires |lost| == MAX_SENSOR && 0 <= id < MAX_SENSOR && 0 <= r < MAX_SENSOR
    ensures r == FirstLeft(lost, id, 1) <==>
      lost[r] != 0 &&
      if r > id then forall i :: id < i < r ==> lost[i] == 0
      else (forall i :: id < i < MAX_SENSOR ==> lost[i] == 0) && (forall i :: 0 <= i < r ==> lost[i] == 0)
  {
    NothingLeft(lost, id);
    forall i: nat | i < |lost| ensures Place(id, Turns(id, i)) == i && 1 <= Turns(id, i) <= MAX_SENSOR {}
  }

  /** How many steps on from `id` sensor `i` is reached. */
  function Turns(id: int, i: int): nat
    requires 0 <= id < MAX_SENSOR && 0 <= i < MAX_SENSOR
  {
    if i > id then i - id else i + MAX_SENSOR - id
  }

  function Max(a: int, b: int): int {
    if a > b then a else b
  }

  // ---------- the search ----------

  function Unset(second: seq<bool>): nat
    requires |second| == MAX_SENSOR
  {
    (if second[0] then 0 else 1) + (if second[1] then 0 else 1)
    + (if second[2] then 0 else 1) + (if second[3] then 0 else 1)
  }

  function Left(lost: seq<int>): int
    requires |lost| == MAX_SENSOR
  {
    lost[0] + lost[1] + lost[2] + lost[3]
  }

  function Work(b: Bank): (w: nat)
    requires Ready(b)
  {
    assert forall i :: 0 <= i < MAX_SENSOR ==> b.lost[i] >= 0;
    Unset(b.second) + Left(b.lost) + (if b.lost[b.id] == 0 then 1 else 0)
  }

  /** One search has failed: look in the second place, or charge the sensor and take the next. */
  function Fail(b: Bank): Bank
    requires Ready(b)
  {
    if b.second[b.id] then
      var lost := b.lost[b.id := Max(b.lost[b.id] - 1, 0)];
      b.(lost := lost, id := FirstLeft(lost, b.id, 1))
    else
      b.(second := b.second[b.id := true])
  }

  lemma LeftAfter(lost: seq<int>, id: int)
    requires |lost| == MAX_SENSOR && 0 <= id < MAX_SENSOR && lost[id] >= 0
    ensures Left(lost[id := Max(lost[id] - 1, 0)]) == Left(lost) - (if lost[id] == 0 then 0 else 1)
  {}

  lemma UnsetAfter(second: seq<bool>, id: int)
    requires |second| == MAX_SENSOR && 0 <= id < MAX_SENSOR && !second[id]
    ensures Unset(second[id := true]) == Unset(second) - 1
  {}

  predicate AllSpent(lost: seq<int>) {
    forall i :: 0 <= i < |lost| ==> lost[i] == 0
  }

  /** What remains to be done after a failure, and what the failure has cost. */
  lemma FailKeeps(b: Bank)
    requires Ready(b)
    ensures var f := Fail(b);
      && Sized(f.second, f.lost) && f.have == b.have
      && (f.id == SENSOR_ERROR ==> b.second[b.id] && AllSpent(f.lost))
      && (f.id != SENSOR_ERROR ==> Ready(f) && Work(f) < Work(b))
      && (b.second[b.id] && f.id != SENSOR_ERROR ==> f.lost[f.id] != 0)
      && (!b.second[b.id] ==> f.id == b.id)
      && 1 == Unset(b.second) - Unset(f.second) + Left(b.lost) - Left(f.lost)
              + if b.second[b.id] && b.lost[b.id] == 0 then 1 else 0
  {
    if b.second[b.id] {
      LeftAfter(b.lost, b.id);
      NothingLeft(Fail(b).lost, b.id);
    } else {
      UnsetAfter(b.second, b.id);
    }
  }

  /** The whole search: the bank it leaves, the number of probes that answer, and the time at its end. */
  function Settle(b: Bank, time: nat, read: Reading): (Bank, nat, nat)
    requires Ready(b)
    decreases Work(b)
  {
    var n := Leading(read, time, b.id, b.second[b.id], 1);
    if n > 0 then (b, n, time + 1)
    else
      FailKeeps(b);
      var f := Fail(b);
      if f.id == SENSOR_ERROR then (f.(have := false), 0, time + 1)
      else Settle(f, time + 1, read)
  }

  /** It returns nothing exactly if it gives the screen up, every sensor then being exhausted; otherwise
      it returns the number of leading probes that answered for the sensor it ends at. */
  lemma SettleOutcome(b: Bank, time: nat, read: Reading)
    requires Ready(b)
    ensures var (after, n, end) := Settle(b, time, read);
      && end > time && Sized(after.second, after.lost)
      && (n == 0 <==> after.id == SENSOR_ERROR)
      && (n == 0 ==> !after.have && AllSpent(after.lost))
      && (n > 0 ==> after.have == b.have && Ready(after)
                    && n == Leading(read, end - 1, after.id, after.second[after.id], 1))
  {
    SettleEnds(b, time, read);
    if Settle(b, time, read).1 > 0 { SettleFinds(b, time, read); }
  }

  lemma {:induction false} SettleEnds(b: Bank, time: nat, read: Reading)
    requires Ready(b)
    ensures var (after, n, end) := Settle(b, time, read);
      && end > time && Sized(after.second, after.lost)
      && (n == 0 <==> after.id == SENSOR_ERROR)
      && (n == 0 ==> !after.have && AllSpent(after.lost))
    decreases Work(b)
  {
    if Leading(read, time, b.id, b.second[b.id], 1) == 0 {
      FailKeeps(b);
      if Fail(b).id != SENSOR_ERROR { SettleEnds(Fail(b), time + 1, read); }
    }
  }

  predicate Answers(read: Reading, b: Bank, n: nat, time: nat) {
    Ready(b) && n == Leading(read, time, b.id, b.second[b.id], 1)
  }

  lemma {:induction false} SettleFinds(b: Bank, time: nat, read: Reading)
    requires Ready(b) && Settle(b, time, read).1 > 0
    ensures var r := Settle(b, time, read);
      r.2 > time && r.0.have == b.have && Answers(read, r.0, r.1, r.2 - 1)
    decreases Work(b)
  {
    if Leading(read, time, b.id, b.second[b.id], 1) == 0 {
      FailKeeps(b);
      SettleFinds(Fail(b), time + 1, read);
    } else {
      assert Settle(b, time, read).0 == b && Settle(b, time, read).2 == time + 1;
    }
  }

  /** Failures are only ever charged; and unless the search starts at an exhausted sensor that answers,
      the one it ends at has failures left. */
  lemma {:induction false} SettleCharges(b: Bank, time: nat, read: Reading)
    requires Ready(b)
    ensures var after := Settle(b, time, read).0;
      && Sized(after.second, after.lost)
      && (forall i :: 0 <= i < MAX_SENSOR ==> after.lost[i] <= b.lost[i])
      && (after.id == SENSOR_ERROR || (Ready(after) && (after.id == b.id || after.lost[after.id] != 0)))
      && (b.lost[b.id] != 0 && after.id != SENSOR_ERROR ==> after.lost[after.id] != 0)
    decreases Work(b)
  {
    FailKeeps(b);
    if Leading(read, time, b.id, b.second[b.id], 1) == 0 && Fail(b).id != SENSOR_ERROR {
      SettleCharges(Fail(b), time + 1, read);
    }
  }

  /** Every failed search is paid for by one sensor switched to its second place or one failure charged;
      the one exception is a search that starts at an exhausted sensor and leaves it. */
  lemma {:induction false} SettleCost(b: Bank, time: nat, read: Reading)
    requires Ready(b)
    ensures var (after, n, end) := Settle(b, time, read);
      && Sized(after.second, after.lost)
      && end - time == (Unset(b.second) - Unset(after.second)) + (Left(b.lost) - Left(after.lost))
                       + (if b.lost[b.id] == 0 && after.id != b.id then 1 else 0)
                       + (if n > 0 then 1 else 0)
    decreases Work(b)
  {
    FailKeeps(b);
    var f := Fail(b);
    if Leading(read, time, b.id, b.second[b.id], 1) == 0 && f.id != SENSOR_ERROR {
      SettleCost(f, time + 1, read);
      SettleCharges(f, time + 1, read);
    }
  }

  /** The sensors a search will not pass over: the one in use and those with failures left. */
  predicate Candidate(b: Bank, c: nat)
    requires Ready(b)
  {
    c < MAX_SENSOR && (c == b.id || b.lost[c] != 0)
  }

  /** At some time of the search this sensor was looked for in this place and did not answer. */
  ghost predicate Failed(read: Reading, from: nat, to: nat, c: nat, second: bool) {
    exists t: nat :: from <= t < to && read(t, c, second, 1) == SENSOR_ERROR
  }

  /** Giving up means that every candidate failed in both places it could be looked for. */
  lemma {:induction false} GivesUpOnlyAfterAll(b: Bank, time: nat, read: Reading, c: nat)
    requires Ready(b) && Candidate(b, c) && Settle(b, time, read).1 == 0
    ensures var end := Settle(b, time, read).2;
      Failed(read, time, end, c, true) && (!b.second[c] ==> Failed(read, time, end, c, false))
    decreases Work(b)
  {
    FailKeeps(b);
    SettleOutcome(b, time, read);
    var end := Settle(b, time, read).2;
    assert read(time, b.id, b.second[b.id], 1) == SENSOR_ERROR;
    assert Failed(read, time, end, b.id, b.second[b.id]);
    var f := Fail(b);
    if f.id == SENSOR_ERROR {
      assert c == b.id;
    } else if c != b.id || !b.second[c] {
      GivesUpOnlyAfterAll(f, time + 1, read, c);
    }
  }

  predicate FoundFrom(b: Bank, after: Bank)
    requires Ready(b)
  {
    Ready(after) && Candidate(b, after.id) && (after.second[after.id] || !b.second[after.id])
  }

  lemma FoundAfterFailure(b: Bank, after: Bank)
    requires Ready(b) && Fail(b).id != SENSOR_ERROR && Ready(Fail(b)) && FoundFrom(Fail(b), after)
    ensures FoundFrom(b, after)
  {
    FailKeeps(b);
  }

  /** The sensor found was a candidate, and was found where a search of the bank as it was could look. */
  lemma {:induction false} FindsACandidate(b: Bank, time: nat, read: Reading)
    requires Ready(b) && Settle(b, time, read).1 != 0
    ensures FoundFrom(b, Settle(b, time, read).0)
    decreases Work(b)
  {
    FailKeeps(b);
    if Leading(read, time, b.id, b.second[b.id], 1) == 0 {
      FindsACandidate(Fail(b), time + 1, read);
      FoundAfterFailure(b, Settle(b, time, read).0);
    }
  }

  ghost predicate Steady(read: Reading) {
    forall s: nat, t: nat, c: nat, second: bool ::
      read(s, c, second, 1) == SENSOR_ERROR <==> read(t, c, second, 1) == SENSOR_ERROR
  }

  predicate Silent(b: Bank, read: Reading, c: nat)
    requires Ready(b) && c < MAX_SENSOR
  {
    read(0, c, true, 1) == SENSOR_ERROR && (!b.second[c] ==> read(0, c, false, 1) == SENSOR_ERROR)
  }

  /** If the sensors do not come and go, the screen is given up exactly if no candidate answers anywhere. */
  lemma {:induction false} GivesUpIff(b: Bank, time: nat, read: Reading)
    requires Ready(b) && Steady(read)
    ensures Settle(b, time, read).1 == 0 <==>
      forall c: nat :: c < MAX_SENSOR && Candidate(b, c) ==> Silent(b, read, c)
  {
    if Settle(b, time, read).1 == 0 {
      forall c: nat | c < MAX_SENSOR && Candidate(b, c) ensures Silent(b, read, c) {
        GivesUpOnlyAfterAll(b, time, read, c);
      }
    } else {
      FindsACandidate(b, time, read);
      SettleOutcome(b, time, read);
      var after, end := Settle(b, time, read).0, Settle(b, time, read).2;
      assert read(0, after.id, after.second[after.id], 1) != SENSOR_ERROR;
      assert !Silent(b, read, after.id);
    }
  }

  // ---------- in place ----------

  class Monitor {
    const second: array<bool>
    const lost: array<int>
    var id: int
    var have: bool
    var time: nat

    ghost predicate Valid()
      reads this, second, lost
    {
      second.Length == MAX_SENSOR && lost.Length == MAX_SENSOR && Ready(View())
    }

    ghost function View(): Bank
      reads this, second, lost
    {
      Bank(second[..], lost[..], id, have)
    }

    constructor ()
      ensures Valid() && fresh(second) && fresh(lost)
      ensures View() == Bank(seq(MAX_SENSOR, _ => false), seq(MAX_SENSOR, _ => 1), 0, true) && time == 0
    {
      second := new bool[MAX_SENSOR](_ => false);
      lost := new int[MAX_SENSOR](_ => 1);
      id, have, time := 0, true, 0;
      new;
      assert second[..] == seq(MAX_SENSOR, _ => false);
      assert lost[..] == seq(MAX_SENSOR, _ => 1);
    }

    method NextSensor(from: int) returns (r: int)
      requires lost.Length == MAX_SENSOR && 0 <= from < MAX_SENSOR
      ensures r == FirstLeft(lost[..], from, 1)
    {
      r := from;
      var k := 0;
      while true
        invariant 0 <= k < MAX_SENSOR && r == Place(from, k)
        invariant FirstLeft(lost[..], from, 1) == FirstLeft(lost[..], from, k + 1)
        decreases MAX_SENSOR - k
      {
        r := r + 1;
        k := k + 1;
        if r >= MAX_SENSOR { r := 0; }
        if lost[r] != 0 { return; }
        if r == from { break; }
      }
      r := SENSOR_ERROR;
    }

    method CountProbes(read: Reading) returns (count: nat)
      requires Valid()
      ensures count == Leading(read, time, id, second[id], 1)
    {
      count := 0;
      while count < NUM_PROBES
        invariant count <= NUM_PROBES
        invariant Leading(read, time, id, second[id], 1) == Leading(read, time, id, second[id], count + 1)
      {
        if read(time, id, second[id], count + 1) == SENSOR_ERROR { return; }
        count := count + 1;
      }
    }

    method Search(read: Reading) returns (count: nat)
      requires Valid()
      modifies this, second, lost
      ensures (View(), count, time) == Settle(old(View()), old(time), read)
      decreases Work(View())
    {
      ghost var was := View();
      count := CountProbes(read);
      time := time + 1;
      if count > 0 { return; }
      FailKeeps(was);
      if second[id] {
        lost[id] := lost[id] - 1;
        if lost[id] < 0 { lost[id] := 0; }
        assert lost[..] == Fail(was).lost;
        id := NextSensor(id);
        assert View() == Fail(was);
        if id == SENSOR_ERROR {
          have := false;
        } else {
          count := Search(read);
        }
      } else {
        second[id] := true;
        assert View() == Fail(was);
        count := Search(read);
      }
    }
  }
}
