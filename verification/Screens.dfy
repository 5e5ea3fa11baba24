/**
Screen arbitration as values: what one atomic step of the daemon does to the list of
client screens, and what holds over whole runs of such steps.

`ScreenList` proves that the linked structure performs exactly these steps.
*/
module Screens {
  import opened Sequences

  /** The screens in list order (the tail, which is the daemon's own clock, comes first and the
      head comes last), the one on display, and the per-screen flags. */
  datatype Screens<Id(==)> = Screens(
    order: seq<Id>,
    current: Id,
    foreground: set<Id>,
    neverSelect: set<Id>,
    lastPriority: map<Id, Id>)

  datatype Step<Id> =
    | Connect(id: Id)
    | Disconnect(id: Id)
    | Cycle
    | Request(id: Id)
    | NeverSelect(id: Id)

  /** What every step keeps. */
  ghost predicate Ok<Id>(s: Screens<Id>) {
    && s.order != [] && Distinct(s.order)
    && s.current in s.order
    && (forall x :: x in s.foreground ==> x in s.order)
    && (forall x, y :: x in s.foreground && y in s.foreground ==> x == y)
    && (forall x :: x in s.neverSelect ==> x in s.order[1..])
    && (forall x :: x in s.lastPriority ==> x in s.order)
  }

  /** No screen remembers a screen that is gone. */
  ghost predicate Anchored<Id>(s: Screens<Id>) {
    forall x :: x in s.lastPriority ==> s.lastPriority[x] in s.order
  }

  /** No screen other than `id` itself remembers `id`. */
  ghost predicate Unnamed<Id>(s: Screens<Id>, id: Id) {
    forall x :: x in s.lastPriority && x != id ==> s.lastPriority[x] != id
  }

  function IndexOf<Id(==)>(order: seq<Id>, x: Id): (i: nat)
    requires x in order
    ensures i < |order| && order[i] == x
  {
    if order[0] == x then 0 else 1 + IndexOf(order[1..], x)
  }

  lemma IndexOfUnique<Id>(order: seq<Id>, i: nat)
    requires Distinct(order) && i < |order|
    ensures IndexOf(order, order[i]) == i
  {
  }

  // ---------- user cycling ----------

  /** The position `d` steps behind `i` on a ring of `n` positions. */
  function Back(n: nat, i: nat, d: nat): (j: nat)
    requires i < n && d <= n
    ensures j < n
  {
    if d <= i then i - d else i - d + n
  }

  /** Cycling may stop at position `i`: not excluded by its client, and not the clock while
      clients are connected. */
  predicate Selectable<Id(==)>(s: Screens<Id>, i: nat)
    requires i < |s.order|
  {
    s.order[i] !in s.neverSelect && (i == 0 ==> |s.order| == 1)
  }

  ghost predicate CanCycle<Id>(s: Screens<Id>) {
    exists i :: 0 <= i < |s.order| && Selectable(s, i)
  }

  /** The walk from position `i` meets a selectable screen at distance `d` or later. */
  ghost predicate Meets<Id>(s: Screens<Id>, i: nat, d: nat)
    requires i < |s.order|
  {
    exists e :: d <= e <= |s.order| && Selectable(s, Back(|s.order|, i, e))
  }

  lemma CanCycleMeets<Id>(s: Screens<Id>, i: nat)
    requires i < |s.order|
    ensures CanCycle(s) <==> Meets(s, i, 1)
  {
    var n := |s.order|;
    if CanCycle(s) {
      var j :| 0 <= j < n && Selectable(s, j);
      var e := if j < i then i - j else i - j + n;
      assert Back(n, i, e) == j;
    }
  }

  /** Distance from position `i` to the first selectable screen at distance `d` or more. */
  ghost function Landing<Id>(s: Screens<Id>, i: nat, d: nat): (r: nat)
    requires i < |s.order| && Meets(s, i, d)
    ensures d <= r <= |s.order| && Selectable(s, Back(|s.order|, i, r))
    ensures forall e :: d <= e < r ==> !Selectable(s, Back(|s.order|, i, e))
    decreases |s.order| - d
  {
    if Selectable(s, Back(|s.order|, i, d)) then d else Landing(s, i, d + 1)
  }

  ghost function CycleTarget<Id>(s: Screens<Id>): (j: nat)
    requires s.current in s.order && CanCycle(s)
    ensures j < |s.order| && Selectable(s, j)
  {
    var i := IndexOf(s.order, s.current);
    CanCycleMeets(s, i);
    Back(|s.order|, i, Landing(s, i, 1))
  }

  // ---------- the steps ----------

  ghost predicate Enabled<Id>(s: Screens<Id>, step: Step<Id>) {
    match step
    case Connect(id) => id !in s.order
    case Disconnect(id) => id in s.order
    case Cycle => CanCycle(s)
    case Request(id) => id in s.order
    case NeverSelect(id) => s.order != [] && id in s.order[1..]
  }

  function Without<Id(==)>(order: seq<Id>, i: nat): seq<Id>
    requires i < |order|
  {
    order[..i] + order[i + 1..]
  }

  /** The screen shown after the one at position `i` of `order` is gone. */
  function Heir<Id(==)>(order: seq<Id>, i: nat): Id
    requires 0 < i < |order|
  {
    if i < |order| - 1 then order[i + 1] else order[i - 1]
  }

  /** The screen before `x` in the list; the tail is before itself. */
  function Before<Id(==)>(order: seq<Id>, x: Id): Id
    requires x in order
  {
    var i := IndexOf(order, x);
    if i == 0 then x else order[i - 1]
  }

  function Forget<Id(==)>(m: map<Id, Id>, id: Id): map<Id, Id> {
    map x | x in m && x != id :: m[x]
  }

  function DoConnect<Id(==)>(s: Screens<Id>, id: Id): Screens<Id> {
    s.(order := s.order + [id], current := id)
  }

  function DoDisconnect<Id(==)>(s: Screens<Id>, id: Id): Screens<Id>
    requires id in s.order
  {
    var i := IndexOf(s.order, id);
    if i == 0 then s else
      Screens(
        Without(s.order, i),
        if s.current == id then Heir(s.order, i) else s.current,
        s.foreground - {id},
        s.neverSelect - {id},
        Forget(s.lastPriority, id))
  }

  ghost function DoCycle<Id>(s: Screens<Id>): Screens<Id>
    requires s.current in s.order && CanCycle(s)
  {
    var x := s.order[CycleTarget(s)];
    s.(current := x, foreground := {x}, lastPriority := s.lastPriority[x := x])
  }

  function DoRequest<Id(==)>(s: Screens<Id>, id: Id): Screens<Id>
    requires id in s.order
  {
    if s.current != id then
      s.(current := id, lastPriority := s.lastPriority[id := s.current])
    else if id !in s.lastPriority || s.lastPriority[id] == id then
      s.(current := Before(s.order, id))
    else
      s.(current := s.lastPriority[id], lastPriority := Forget(s.lastPriority, id))
  }

  ghost function Apply<Id>(s: Screens<Id>, step: Step<Id>): Screens<Id>
    requires Ok(s) && Enabled(s, step)
  {
    match step
    case Connect(id) => DoConnect(s, id)
    case Disconnect(id) => DoDisconnect(s, id)
    case Cycle => DoCycle(s)
    case Request(id) => DoRequest(s, id)
    case NeverSelect(id) => s.(neverSelect := s.neverSelect + {id})
  }

  // ---------- invariants over runs ----------

  /** A step leaves no screen remembering a screen that goes away. */
  ghost predicate Tidy<Id>(s: Screens<Id>, step: Step<Id>) {
    step.Disconnect? && s.order != [] && step.id != s.order[0] ==> Unnamed(s, step.id)
  }

  lemma WithoutMembers<Id>(order: seq<Id>, i: nat)
    requires Distinct(order) && i < |order|
    ensures Distinct(Without(order, i))
    ensures forall x :: x in Without(order, i) <==> x in order && x != order[i]
  {
    var w := Without(order, i);
    forall x | x in order && x != order[i] ensures x in w {
      var k :| 0 <= k < |order| && order[k] == x;
      assert w[if k < i then k else k - 1] == x;
    }
  }

  lemma {:induction false} DisconnectKeeps<Id>(s: Screens<Id>, id: Id)
    requires Ok(s) && id in s.order
    ensures var t := DoDisconnect(s, id);
      Ok(t) && (Anchored(s) && id != s.order[0] ==> (Anchored(t) <==> Unnamed(s, id)))
  {
    var i := IndexOf(s.order, id);
    var t := DoDisconnect(s, id);
    if i != 0 {
      WithoutMembers(s.order, i);
      assert s.order[0] != id;
      assert t.order[0] == s.order[0];
      if i < |s.order| - 1 { assert s.order[i + 1] != id; } else { assert s.order[i - 1] != id; }
      forall x | x in t.neverSelect ensures x in t.order[1..] {
        var k :| 0 <= k < |s.order[1..]| && s.order[1..][k] == x;
        assert s.order[k + 1] == x && x != s.order[0];
        assert x in t.order;
        var j :| 0 <= j < |t.order| && t.order[j] == x;
        assert t.order[1..][j - 1] == x;
      }
      if Anchored(s) && !Unnamed(s, id) {
        var x :| x in s.lastPriority && x != id && s.lastPriority[x] == id;
        assert t.lastPriority[x] == id;
      }
    }
  }

  /** The others stay in order, and the display stays where it is: the screen that moves up into the place of
      the one that has gone, or the new head if there is none, is shown. */
  lemma DisconnectShows<Id>(s: Screens<Id>, i: nat)
    requires Ok(s) && 0 < i < |s.order|
    ensures var t := DoDisconnect(s, s.order[i]);
      && |t.order| == |s.order| - 1
      && (forall k :: 0 <= k < i ==> t.order[k] == s.order[k])
      && (forall k :: i <= k < |t.order| ==> t.order[k] == s.order[k + 1])
      && (s.current != s.order[i] ==> t.current == s.current)
      && (s.current == s.order[i] ==> t.current == t.order[if i < |t.order| then i else |t.order| - 1])
  {
    IndexOfUnique(s.order, i);
  }

  /** A request keeps the displayed screen in the list, except when the screen on display asks to go
      back to a remembered screen that has been removed. */
  lemma RequestKeeps<Id>(s: Screens<Id>, id: Id)
    requires Ok(s) && id in s.order
    ensures var t := DoRequest(s, id);
      && (Ok(t) <==> !(s.current == id && id in s.lastPriority && s.lastPriority[id] !in s.order))
      && (Anchored(s) ==> Ok(t) && Anchored(t))
  {}

  /** A run asks only for steps that can be taken. Nothing is asked of what follows a state that is not
      sound: there the daemon works on a screen that has been freed. */
  ghost predicate Possible<Id>(s: Screens<Id>, steps: seq<Step<Id>>)
    decreases |steps|
  {
    steps == [] || (Ok(s) ==> Enabled(s, steps[0]) && Possible(Apply(s, steps[0]), steps[1..]))
  }

  /** The state at the end of a run, or the first one that is not sound. */
  ghost function Run<Id>(s: Screens<Id>, steps: seq<Step<Id>>): Screens<Id>
    requires Possible(s, steps)
    decreases |steps|
  {
    if steps == [] || !Ok(s) then s else Run(Apply(s, steps[0]), steps[1..])
  }

  function Init<Id(==)>(clock: Id): Screens<Id> {
    Screens([clock], clock, {}, {}, map[])
  }

  /** The screen on display hands back to a remembered one that has gone. */
  ghost predicate HandsBackToGone<Id>(s: Screens<Id>, step: Step<Id>) {
    step.Request? && s.current == step.id && step.id in s.lastPriority && s.lastPriority[step.id] !in s.order
  }

  ghost predicate NeverHandsBackToGone<Id>(s: Screens<Id>, steps: seq<Step<Id>>)
    requires Possible(s, steps)
    decreases |steps|
  {
    steps == [] || !Ok(s) ||
    (!HandsBackToGone(s, steps[0]) && NeverHandsBackToGone(Apply(s, steps[0]), steps[1..]))
  }

  /** One step leads to a sound state exactly if it does not hand back to a screen that has gone. */
  lemma StepOkIff<Id>(s: Screens<Id>, step: Step<Id>)
    requires Ok(s) && Enabled(s, step)
    ensures Ok(Apply(s, step)) <==> !HandsBackToGone(s, step)
    ensures Ok(Apply(s, step)) ==> Apply(s, step).order[0] == s.order[0]
  {
    match step
    case Connect(id) =>
      var t := DoConnect(s, id);
      assert t.order[1..] == s.order[1..] + [id];
      assert t.order[|s.order|] == id;
    case Disconnect(id) => DisconnectKeeps(s, id);
    case Cycle =>
    case Request(id) => RequestKeeps(s, id);
    case NeverSelect(id) =>
  }

  /** Over any run every state is sound if and only if no request ever hands the display back to a screen
      that has gone; and the clock is never lost. */
  lemma {:induction false} RunOkIff<Id>(s: Screens<Id>, steps: seq<Step<Id>>)
    requires Ok(s) && Possible(s, steps)
    ensures Ok(Run(s, steps)) <==> NeverHandsBackToGone(s, steps)
    ensures Ok(Run(s, steps)) ==> Run(s, steps).order[0] == s.order[0]
    decreases |steps|
  {
    if steps != [] {
      StepOkIff(s, steps[0]);
      var t := Apply(s, steps[0]);
      if Ok(t) { RunOkIff(t, steps[1..]); }
    }
  }

  lemma {:induction false} StepKeeps<Id>(s: Screens<Id>, step: Step<Id>)
    requires Ok(s) && Anchored(s) && Enabled(s, step) && Tidy(s, step)
    ensures Ok(Apply(s, step)) && Anchored(Apply(s, step))
  {
    StepOkIff(s, step);
    match step
    case Connect(id) =>
    case Disconnect(id) => DisconnectKeeps(s, id);
    case Cycle =>
    case Request(id) => RequestKeeps(s, id);
    case NeverSelect(id) =>
  }

  /** No screen goes while another one remembers it. */
  ghost predicate TidyRun<Id>(s: Screens<Id>, steps: seq<Step<Id>>)
    requires Possible(s, steps)
    decreases |steps|
  {
    steps == [] || !Ok(s) || (Tidy(s, steps[0]) && TidyRun(Apply(s, steps[0]), steps[1..]))
  }

  /** Such a run keeps every state sound and every memory current. */
  lemma {:induction false} RunKeeps<Id>(s: Screens<Id>, steps: seq<Step<Id>>)
    requires Ok(s) && Anchored(s) && Possible(s, steps) && TidyRun(s, steps)
    ensures Ok(Run(s, steps)) && Anchored(Run(s, steps))
    decreases |steps|
  {
    if steps != [] {
      StepKeeps(s, steps[0]);
      RunKeeps(Apply(s, steps[0]), steps[1..]);
    }
  }

  /** From a freshly started daemon: exactly as long as nothing is handed back to a screen that has gone,
      every state shows a listed screen, has at most one user-selected screen, and has the clock as its tail. */
  lemma RunsFromInit<Id>(clock: Id, steps: seq<Step<Id>>)
    requires Possible(Init(clock), steps)
    ensures var t := Run(Init(clock), steps);
      && (NeverHandsBackToGone(Init(clock), steps) <==> Ok(t))
      && (Ok(t) ==> t.order[0] == clock)
      && (TidyRun(Init(clock), steps) ==> Ok(t) && Anchored(t))
  {
    RunOkIff(Init(clock), steps);
    if TidyRun(Init(clock), steps) { RunKeeps(Init(clock), steps); }
  }

  /** It can happen: A displaces B, B goes away, A hands back to B. */
  lemma DanglingRequest<Id>(clock: Id, a: Id, b: Id)
    requires clock != a && clock != b && a != b
    ensures
      var s1 := DoRequest(DoConnect(DoConnect(Init(clock), a), b), a);
      && Ok(s1) && Anchored(s1)
      && var s2 := DoDisconnect(s1, b);
      && Ok(s2) && HandsBackToGone(s2, Request(a))
      && DoRequest(s2, a).current == b && b !in DoRequest(s2, a).order
  {
    var s1 := DoRequest(DoConnect(DoConnect(Init(clock), a), b), a);
    assert s1.order == [clock, a, b];
    var s2 := DoDisconnect(s1, b);
    assert s2.order == [clock, a];
  }

  // ---------- cycling: termination, uniqueness, fairness ----------

  /** Whatever the starting screen, walking the ring ever meets a stopping place exactly when some
      client allows selection, or no client is connected. */
  lemma CycleStopsIff<Id>(s: Screens<Id>, i: nat)
    requires Ok(s) && i < |s.order|
    ensures Meets(s, i, 1) <==>
      |s.order| == 1 || exists x :: x in s.order[1..] && x !in s.neverSelect
  {
    CanCycleMeets(s, i);
    if |s.order| == 1 {
      assert Selectable(s, 0);
    } else if CanCycle(s) {
      var j :| 0 <= j < |s.order| && Selectable(s, j);
      assert s.order[1..][j - 1] == s.order[j];
    } else if x :| x in s.order[1..] && x !in s.neverSelect {
      var k :| 0 <= k < |s.order[1..]| && s.order[1..][k] == x;
      assert Selectable(s, k + 1);
    }
  }

  /** One connected client that excludes itself leaves cycling with nowhere to stop. */
  lemma CycleNeedNotStop<Id>(clock: Id, a: Id)
    requires clock != a
    ensures
      var steps := [Connect(a), NeverSelect(a)];
      Possible(Init(clock), steps) && !CanCycle(Run(Init(clock), steps))
  {
    var s := DoConnect(Init(clock), a);
    assert s.order[1..] == [a];
    var t := Apply(s, NeverSelect(a));
    var steps := [Connect(a), NeverSelect(a)];
    assert steps[1..] == [NeverSelect(a)] && steps[1..][1..] == [];
    assert Run(s, steps[1..]) == t;
    assert !Selectable(t, 0) && !Selectable(t, 1);
  }

  /** The positions below `hi` where cycling may stop, from the head down. */
  function Stops<Id(==)>(s: Screens<Id>, hi: nat): (p: seq<nat>)
    requires hi <= |s.order|
    ensures forall k :: 0 <= k < |p| ==> p[k] < hi && Selectable(s, p[k])
    ensures forall j, k :: 0 <= j < k < |p| ==> p[k] < p[j]
    ensures forall i :: 0 <= i < hi && Selectable(s, i) ==> i in p
  {
    if hi == 0 then []
    else if Selectable(s, hi - 1) then [hi - 1] + Stops(s, hi - 1)
    else Stops(s, hi - 1)
  }

  /** `p` positions after `k` on a ring of `m`. */
  function After(m: nat, p: nat, k: nat): (q: nat)
    requires p < m && k <= m
    ensures q < m
  {
    if p + k < m then p + k else p + k - m
  }

  /** Cycling stops nowhere strictly between two neighbouring stops. */
  lemma NoStopBetween<Id>(s: Screens<Id>, p: nat, l: nat)
    requires var stops := Stops(s, |s.order|); p < |stops| && l < |s.order|
    requires var stops := Stops(s, |s.order|);
      if p + 1 < |stops| then stops[p + 1] < l < stops[p] else l < stops[p] || stops[0] < l
    ensures !Selectable(s, l)
  {
    var stops := Stops(s, |s.order|);
    NotAmong(stops, p, l);
  }

  lemma NotAmong(stops: seq<nat>, p: nat, l: nat)
    requires p < |stops| && forall j, k :: 0 <= j < k < |stops| ==> stops[k] < stops[j]
    requires if p + 1 < |stops| then stops[p + 1] < l < stops[p] else l < stops[p] || stops[0] < l
    ensures l !in stops
  {
    forall k | 0 <= k < |stops| ensures stops[k] != l {
      if k < p { assert stops[p] < stops[k]; }
      if p + 1 < k { assert stops[k] < stops[p + 1]; }
      if 0 < k { assert stops[k] < stops[0]; }
    }
  }

  lemma LandingIs<Id>(s: Screens<Id>, i: nat, d: nat)
    requires i < |s.order| && 1 <= d <= |s.order| && Selectable(s, Back(|s.order|, i, d))
    requires forall e :: 1 <= e < d ==> !Selectable(s, Back(|s.order|, i, e))
    ensures Meets(s, i, 1) && Landing(s, i, 1) == d
  {}

  /** The screen on display is the `p`-th stop. */
  ghost predicate AtStop<Id>(s: Screens<Id>, stops: seq<nat>, p: nat) {
    stops == Stops(s, |s.order|) && p < |stops| && s.current == s.order[stops[p]]
  }

  /** From a stop, cycling goes to the next stop down the list, wrapping to the topmost one. */
  lemma {:induction false} CycleToNextStop<Id>(s: Screens<Id>, stops: seq<nat>, p: nat)
    requires Ok(s) && AtStop(s, stops, p)
    ensures CanCycle(s) && CycleTarget(s) == stops[After(|stops|, p, 1)]
  {
    var n := |s.order|;
    var i := stops[p];
    IndexOfUnique(s.order, i);
    CanCycleMeets(s, i);
    var j := stops[After(|stops|, p, 1)];
    var d := if p + 1 < |stops| then i - j else i - j + n;
    assert 1 <= d <= n && Back(n, i, d) == j;
    forall e | 1 <= e < d ensures !Selectable(s, Back(n, i, e)) {
      NoStopBetween(s, p, Back(n, i, e));
    }
    LandingIs(s, i, d);
  }

  lemma StopsSame<Id>(s: Screens<Id>, t: Screens<Id>, hi: nat)
    requires s.order == t.order && s.neverSelect == t.neverSelect && hi <= |s.order|
    ensures Stops(s, hi) == Stops(t, hi)
  {}

  lemma CycleAdvances<Id>(s: Screens<Id>, stops: seq<nat>, p: nat)
    requires Ok(s) && AtStop(s, stops, p)
    ensures CanCycle(s)
    ensures var t := DoCycle(s);
      Ok(t) && t.order == s.order && AtStop(t, stops, After(|stops|, p, 1))
  {
    CycleToNextStop(s, stops, p);
    StopsSame(s, DoCycle(s), |s.order|);
  }

  /** The screens shown by `k` successive user cycles. */
  ghost function Visits<Id>(s: Screens<Id>, k: nat): seq<Id>
    requires s.current in s.order && (k > 0 ==> CanCycle(s))
    decreases k
  {
    if k == 0 then [] else
      var t := DoCycle(s);
      assert forall i :: 0 <= i < |s.order| ==> Selectable(t, i) == Selectable(s, i);
      assert CanCycle(t);
      [t.current] + Visits(t, k - 1)
  }

  /** The next `k` names on a ring, after position `p`. */
  function RingWalk<Id>(names: seq<Id>, p: nat, k: nat): (v: seq<Id>)
    requires p < |names|
    ensures |v| == k
    decreases k
  {
    if k == 0 then [] else
      var q := After(|names|, p, 1);
      [names[q]] + RingWalk(names, q, k - 1)
  }

  lemma {:induction false} RingWalkAt<Id>(names: seq<Id>, p: nat, k: nat, j: nat)
    requires p < |names| && j < k <= |names|
    ensures RingWalk(names, p, k)[j] == names[After(|names|, p, j + 1)]
    decreases k
  {
    if j > 0 {
      var q := After(|names|, p, 1);
      RingWalkAt(names, q, k - 1, j - 1);
      assert After(|names|, q, j) == After(|names|, p, j + 1);
    }
  }

  /** The screens at the stops, from the head of the list down. */
  ghost function StopNames<Id>(s: Screens<Id>, stops: seq<nat>): (names: seq<Id>)
    requires forall k :: 0 <= k < |stops| ==> stops[k] < |s.order|
  {
    seq(|stops|, k requires 0 <= k < |stops| => s.order[stops[k]])
  }

  lemma SameNames<Id>(s: Screens<Id>, t: Screens<Id>, stops: seq<nat>)
    requires s.order == t.order && forall k :: 0 <= k < |stops| ==> stops[k] < |s.order|
    ensures StopNames(s, stops) == StopNames(t, stops)
  {}

  /** Successive cycles walk the ring of stops. */
  lemma {:induction false} VisitsWalk<Id>(s: Screens<Id>, stops: seq<nat>, p: nat, k: nat)
    requires Ok(s) && AtStop(s, stops, p)
    ensures CanCycle(s) && Visits(s, k) == RingWalk(StopNames(s, stops), p, k)
    decreases k
  {
    CycleAdvances(s, stops, p);
    if k > 0 {
      var t := DoCycle(s);
      SameNames(s, t, stops);
      VisitsWalk(t, stops, After(|stops|, p, 1), k - 1);
    }
  }

  ghost predicate UserSelectable<Id>(s: Screens<Id>, x: Id) {
    exists i :: 0 <= i < |s.order| && s.order[i] == x && Selectable(s, i)
  }

  /** m successive names on a ring of m distinct names: all of them, each once, ending at the start. */
  lemma {:induction false} FullRingWalk<Id>(names: seq<Id>, p: nat)
    requires Distinct(names) && p < |names|
    ensures var v := RingWalk(names, p, |names|);
      Distinct(v) && v[|names| - 1] == names[p] && forall x :: x in v <==> x in names
  {
    var m := |names|;
    var v := RingWalk(names, p, m);
    forall j | 0 <= j < m ensures v[j] == names[After(m, p, j + 1)] { RingWalkAt(names, p, m, j); }
    forall j, k | 0 <= j < k < m ensures v[j] != v[k] {
      var a, b := After(m, p, j + 1), After(m, p, k + 1);
      assert names[if a < b then a else b] != names[if a < b then b else a];
    }
    forall x | x in names ensures x in v {
      var q :| 0 <= q < m && names[q] == x;
      assert v[if q > p then q - p - 1 else q - p - 1 + m] == x;
    }
  }

  lemma StopNamesDistinct<Id>(s: Screens<Id>)
    requires Ok(s)
    ensures var names := StopNames(s, Stops(s, |s.order|));
      Distinct(names) && forall x :: x in names <==> UserSelectable(s, x)
  {
    var stops := Stops(s, |s.order|);
    var names := StopNames(s, stops);
    forall j, k | 0 <= j < k < |names| ensures names[j] != names[k] {
      assert stops[k] < stops[j];
      assert s.order[stops[k]] != s.order[stops[j]];
    }
    forall x | UserSelectable(s, x) ensures x in names {
      var i :| 0 <= i < |s.order| && s.order[i] == x && Selectable(s, i);
      var q :| 0 <= q < |stops| && stops[q] == i;
      assert names[q] == x;
    }
  }

  /** Round robin: with m screens to choose from, m cycles started on one of them visit each of them
      exactly once and end where they began. */
  lemma {:induction false} RoundRobin<Id>(s: Screens<Id>)
    requires Ok(s) && UserSelectable(s, s.current)
    ensures CanCycle(s)
    ensures
      var m := |Stops(s, |s.order|)|;
      var v := Visits(s, m);
      && m > 0 && |v| == m && Distinct(v)
      && (forall x :: x in v <==> UserSelectable(s, x))
      && v[m - 1] == s.current
  {
    var stops := Stops(s, |s.order|);
    var names := StopNames(s, stops);
    StopNamesDistinct(s);
    var p :| 0 <= p < |names| && names[p] == s.current;
    VisitsWalk(s, stops, p, |stops|);
    FullRingWalk(names, p);
  }

  // ---------- the screens shown when every displayed screen goes ----------

  /** The screens shown while the displayed one goes away, again and again. */
  function Departures<Id(==)>(s: Screens<Id>): (v: seq<Id>)
    requires s.current in s.order
    decreases |s.order|
  {
    if s.current == s.order[0] then []
    else
      var t := DoDisconnect(s, s.current);
      if t.current in t.order then [t.current] + Departures(t) else []
  }

  /** If the displayed screen goes away again and again, those above it are shown in order, then those below
      it from the top down, and the clock last. */
  lemma {:induction false} DeparturesEndAtClock<Id>(s: Screens<Id>, i: nat)
    requires Ok(s) && i < |s.order| && s.current == s.order[i]
    ensures Departures(s) == if i == 0 then [] else s.order[i + 1..] + Reverse(s.order[..i])
    decreases |s.order|
  {
    if i > 0 {
      var t := DoDisconnect(s, s.order[i]);
      DisconnectKeeps(s, s.order[i]);
      DisconnectShows(s, i);
      var j := if i < |t.order| then i else |t.order| - 1;
      DeparturesEndAtClock(t, j);
      OneDeparture(s.order, t.order, i);
    }
  }

  lemma OneDeparture<Id>(order: seq<Id>, left: seq<Id>, i: nat)
    requires 0 < i < |order| && left == Without(order, i)
    ensures var j := if i < |left| then i else |left| - 1;
      order[i + 1..] + Reverse(order[..i]) ==
        [left[j]] + if j == 0 then [] else left[j + 1..] + Reverse(left[..j])
  {
    if i < |left| {
      assert order[i + 1..] == [left[i]] + left[i + 1..] && left[..i] == order[..i];
    } else {
      assert order[..i] == left == left[..i - 1] + [left[i - 1]] && order[i + 1..] == [];
      ReverseEnd(left[..i - 1], left[i - 1]);
    }
  }

  lemma ReverseEnd<T>(s: seq<T>, x: T)
    ensures Reverse(s + [x]) == [x] + Reverse(s)
  {}

  // ---------- priority requests unwind like a stack ----------

  function Reverse<T>(s: seq<T>): (r: seq<T>)
    ensures |r| == |s|
    ensures forall i :: 0 <= i < |s| ==> r[i] == s[|s| - 1 - i]
  {
    if s == [] then [] else Reverse(s[1..]) + [s[0]]
  }

  /** The state after requests from the screens `ids`, in turn. */
  function Requests<Id(==)>(s: Screens<Id>, ids: seq<Id>): (t: Screens<Id>)
    requires forall x :: x in ids ==> x in s.order
    ensures t.order == s.order
    decreases |ids|
  {
    if ids == [] then s else Requests(DoRequest(s, ids[0]), ids[1..])
  }

  /** The screens shown after each of those requests. */
  function Shown<Id(==)>(s: Screens<Id>, ids: seq<Id>): (v: seq<Id>)
    requires forall x :: x in ids ==> x in s.order
    ensures |v| == |ids|
    decreases |ids|
  {
    if ids == [] then [] else
      var t := DoRequest(s, ids[0]);
      [t.current] + Shown(t, ids[1..])
  }

  lemma {:induction false} RequestsConcat<Id>(s: Screens<Id>, a: seq<Id>, b: seq<Id>)
    requires forall x :: x in a + b ==> x in s.order
    ensures (forall x :: x in a ==> x in s.order) && (forall x :: x in b ==> x in s.order)
    ensures Requests(s, a + b) == Requests(Requests(s, a), b)
    ensures Shown(s, a + b) == Shown(s, a) + Shown(Requests(s, a), b)
    decreases |a|
  {
    assert forall x :: x in a ==> x in a + b;
    assert forall x :: x in b ==> x in a + b;
    if a == [] {
      assert a + b == b;
    } else {
      assert (a + b)[0] == a[0] && (a + b)[1..] == a[1..] + b;
      RequestsConcat(DoRequest(s, a[0]), a[1..], b);
    }
  }

  /** The state once every screen of `ids` has asked twice: only their memory is gone. */
  ghost function Unwound<Id>(s: Screens<Id>, ids: seq<Id>): Screens<Id> {
    s.(lastPriority := map x | x in s.lastPriority && x !in ids :: s.lastPriority[x])
  }

  /** The screen on display remembers nobody, or itself. */
  predicate Rootless<Id(==)>(s: Screens<Id>, x: Id) {
    x !in s.lastPriority || s.lastPriority[x] == x
  }

  /** If the screen on display asks for it, and remembers nobody else, the one below it in the list is shown,
      and the clock stays. Nothing else changes. */
  lemma RequestStepsDown<Id>(s: Screens<Id>, i: nat)
    requires Ok(s) && i < |s.order| && s.current == s.order[i] && Rootless(s, s.current)
    ensures DoRequest(s, s.current) == s.(current := s.order[if i == 0 then 0 else i - 1])
  {
    IndexOfUnique(s.order, i);
  }

  /** The state after the screen on display has asked `k` times. */
  function Yields<Id(==)>(s: Screens<Id>, k: nat): Screens<Id>
    requires s.current in s.order
    decreases k
  {
    if k == 0 then s
    else
      var t := DoRequest(s, s.current);
      if t.current in t.order then Yields(t, k - 1) else t
  }

  /** Such requests walk down the list one screen at a time, and end at the clock. */
  lemma {:induction false} YieldsWalkDown<Id>(s: Screens<Id>, i: nat, k: nat)
    requires Ok(s) && i < |s.order| && s.current == s.order[i]
    requires forall j :: 0 <= j <= i ==> Rootless(s, s.order[j])
    ensures Yields(s, k) == s.(current := s.order[if k <= i then i - k else 0])
    decreases k
  {
    if k > 0 {
      RequestStepsDown(s, i);
      var t := DoRequest(s, s.current);
      YieldsWalkDown(t, if i == 0 then 0 else i - 1, k - 1);
    }
  }

  /** A screen that the user has cycled to has nobody to hand back to: its own request shows the one below it,
      and a screen that displaces it brings it back. */
  lemma RequestAfterCycle<Id>(s: Screens<Id>, y: Id)
    requires Ok(s) && CanCycle(s) && y in s.order
    ensures
      var t, j := DoCycle(s), CycleTarget(s);
      && t.current == s.order[j] && t.order == s.order && t.foreground == {s.order[j]}
      && DoRequest(t, t.current) == t.(current := s.order[if j == 0 then 0 else j - 1])
      && (y != t.current ==>
            var u := DoRequest(t, y);
            u.current == y && DoRequest(u, y).current == t.current)
  {
    var j := CycleTarget(s);
    IndexOfUnique(s.order, j);
  }

  /** A first request displaces `old`; a second one, made while on display, brings it back. */
  lemma RequestTwice<Id>(s: Screens<Id>, x: Id, rest: seq<Id>)
    requires x in s.order && x != s.current && x !in rest
    ensures
      var s1 := DoRequest(s, x);
      && s1.current == x && s1.order == s.order
      && DoRequest(Unwound(s1, rest), x) == Unwound(s, [x] + rest)
  {}

  lemma ReverseMembers<T>(s: seq<T>)
    ensures forall x :: x in Reverse(s) <==> x in s
  {
    var r := Reverse(s);
    forall x | x in s ensures x in r {
      var k :| 0 <= k < |s| && s[k] == x;
      assert r[|s| - 1 - k] == x;
    }
  }

  /** If distinct background screens ask for the display one after the other, and then ask again in
      reverse order, each is shown in turn, then every earlier screen comes back in turn, and the
      original one ends up on display, with nothing remembered by those that asked. */
  lemma {:induction false} RequestsUnwind<Id>(s: Screens<Id>, ids: seq<Id>)
    requires Distinct(ids) && s.current !in ids
    requires forall x :: x in ids ==> x in s.order
    ensures forall x :: x in ids + Reverse(ids) ==> x in s.order
    ensures Requests(s, ids + Reverse(ids)) == Unwound(s, ids)
    ensures Shown(s, ids + Reverse(ids)) == ids + Reverse(([s.current] + ids)[..|ids|])
    decreases |ids|
  {
    ReverseMembers(ids);
    if ids == [] {
      assert Reverse(ids) == [] && ids + Reverse(ids) == [];
      assert Unwound(s, ids) == s;
    } else {
      var x, rest := ids[0], ids[1..];
      var s1 := DoRequest(s, x);
      RequestTwice(s, x, rest);
      RequestsUnwind(s1, rest);
      ReverseWrap(ids);
      RequestsWrap(s, x, rest + Reverse(rest));
      ReverseSnoc(s.current, x, rest);
      assert ids == [x] + rest;
    }
  }

  lemma ReverseSnoc<T>(c: T, x: T, rest: seq<T>)
    ensures Reverse(([c, x] + rest)[..|rest| + 1]) == Reverse(([x] + rest)[..|rest|]) + [c]
    ensures [c] + ([x] + rest) == [c, x] + rest
  {
    assert ([c, x] + rest)[..|rest| + 1] == [c] + ([x] + rest)[..|rest|];
  }

  /** Wrapping requests in a first and a last one by the same screen. */
  lemma RequestsWrap<Id>(s: Screens<Id>, x: Id, inner: seq<Id>)
    requires x in s.order && forall y :: y in inner ==> y in s.order
    ensures forall y :: y in [x] + (inner + [x]) ==> y in s.order
    ensures
      var s1 := DoRequest(s, x);
      var s3 := DoRequest(Requests(s1, inner), x);
      && Requests(s, [x] + (inner + [x])) == s3
      && Shown(s, [x] + (inner + [x])) == [s1.current] + (Shown(s1, inner) + [s3.current])
  {
    var s1 := DoRequest(s, x);
    RequestsConcat(s1, inner, [x]);
    RequestOne(Requests(s1, inner), x);
    assert ([x] + (inner + [x]))[1..] == inner + [x];
  }

  lemma RequestOne<Id>(s: Screens<Id>, x: Id)
    requires x in s.order
    ensures Requests(s, [x]) == DoRequest(s, x) && Shown(s, [x]) == [DoRequest(s, x).current]
  {
    assert [x][1..] == [];
  }

  lemma ReverseWrap<T>(ids: seq<T>)
    requires ids != []
    ensures ids + Reverse(ids) == [ids[0]] + ((ids[1..] + Reverse(ids[1..])) + [ids[0]])
  {
    var x, rest := ids[0], ids[1..];
    assert ids == [x] + rest;
    Assoc([x], rest, Reverse(rest) + [x]);
    Assoc(rest, Reverse(rest), [x]);
  }
}
