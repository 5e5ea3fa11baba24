/**
The daemon's list of client screens: a ring through `next` and a chain through `prev` that ends in
the self-looping tail. Every operation is one atomic step (the list mutex is held) and performs
exactly the step that `Screens` gives for it.
*/
module ScreenList {
  import opened Sequences
  import opened Screens

  /** A list node together with the flags of the screen it owns. */
  class ScreenNode {
    var prev: ScreenNode?
    var next: ScreenNode?
    var lastPriority: ScreenNode?
    var usrForeground: nat
    var neverSelect: nat
    var stateChanged: nat

    constructor ()
      ensures prev == null && next == null && lastPriority == null
      ensures usrForeground == 0 && neverSelect == 0 && stateChanged == 1
    {
      prev, next, lastPriority := null, null, null;
      usrForeground, neverSelect, stateChanged := 0, 0, 1;
    }
  }

  class ScreenList {
    var head: ScreenNode
    var tail: ScreenNode
    var current: ScreenNode
    var numClients: nat
    ghost var nodes: seq<ScreenNode>  // tail first, head last

    /** The links spell out `nodes` in both directions. */
    ghost predicate Linked()
      reads this`head, this`tail, this`numClients, this`nodes, nodes`prev, nodes`next
    {
      && nodes != [] && Distinct(nodes)
      && tail == nodes[0] && head == nodes[|nodes| - 1]
      && tail.prev == tail && head.next == tail
      && (forall i {:trigger nodes[i].prev} :: 1 <= i < |nodes| ==> nodes[i].prev == nodes[i - 1])
      && (forall i {:trigger nodes[i].next} :: 0 <= i < |nodes| - 1 ==> nodes[i].next == nodes[i + 1])
      && numClients == |nodes| - 1
    }

    ghost predicate Valid()
      reads this, nodes
    {
      && Linked()
      && current in nodes
      && tail.neverSelect != 1
      && (forall x, y :: x in Foreground() && y in Foreground() ==> x == y)
    }

    ghost function Foreground(): set<ScreenNode>
      reads this`nodes, nodes`usrForeground
    {
      set n | n in nodes && n.usrForeground != 0
    }

    ghost function Excluded(): set<ScreenNode>
      reads this`nodes, nodes`neverSelect
    {
      set n | n in nodes && n.neverSelect == 1
    }

    ghost function Remembered(): map<ScreenNode, ScreenNode>
      reads this`nodes, nodes`lastPriority
    {
      map n | n in nodes && n.lastPriority != null :: n.lastPriority
    }

    ghost function View(): Screens<ScreenNode>
      reads this, nodes
    {
      Screens(nodes, current, Foreground(), Excluded(), Remembered())
    }

    lemma ViewOk()
      requires Valid()
      ensures Ok(View())
    {
      var s := View();
      forall x | x in s.neverSelect ensures x in s.order[1..] {
        var k :| 0 <= k < |nodes| && nodes[k] == x;
        assert s.order[1..][k - 1] == x;
      }
    }

    constructor ()
      ensures Valid() && fresh(this) && fresh(tail)
      ensures View() == Init(tail)
    {
      var clock := new ScreenNode();
      head, tail, current := clock, clock, clock;
      numClients := 0;
      nodes := [clock];
      new;
      clock.prev := clock;
      clock.next := clock;
      assert View().lastPriority == map[];
    }

    method Add() returns (node: ScreenNode)
      requires Valid()
      modifies this, nodes
      ensures Valid() && fresh(node)
      ensures View() == DoConnect(old(View()), node)
    {
      node := new ScreenNode();
      Append(node);
      current := node;
      assert Foreground() == old(Foreground());
      assert Excluded() == old(Excluded());
      assert Remembered() == old(Remembered());
    }

    /** Links a node in after the head; its flags and everyone else's stay as they are. */
    method Append(node: ScreenNode)
      requires Linked() && node !in nodes
      modifies this`head, this`numClients, this`nodes, nodes`next, node`next, node`prev
      ensures Linked() && nodes == old(nodes) + [node]
    {
      node.prev := head;
      node.next := tail;
      head.next := node;
      head := node;
      numClients := numClients + 1;
      nodes := nodes + [node];
    }

    method MarkNeverSelect(node: ScreenNode)
      requires Valid() && node in nodes && node != tail
      modifies node`neverSelect
      ensures Valid()
      ensures View() == old(View()).(neverSelect := old(View()).neverSelect + {node})
    {
      node.neverSelect := 1;
    }

    lemma PrevIsBefore(node: ScreenNode)
      requires Linked() && node in nodes
      ensures node.prev == Before(nodes, node)
    {
      var i := IndexOf(nodes, node);
      assert nodes[i].prev == if i == 0 then nodes[0] else nodes[i - 1];
    }

    method RequestPriority(node: ScreenNode)
      requires Valid() && node in nodes
      modifies this`current, node`lastPriority
      ensures Linked() && (current in nodes ==> Valid())
      ensures View() == DoRequest(old(View()), node)
      ensures current ==
        if old(current) != node then node
        else if old(node.lastPriority) == null || old(node.lastPriority) == node then old(node.prev)
        else old(node.lastPriority)
      ensures node.lastPriority ==
        if old(current) != node then old(current)
        else if old(node.lastPriority) == node then node
        else null
    {
      PrevIsBefore(node);
      ghost var s := View();
      if current != node {
        Remember(node, current);
        current := node;
      } else if current == node.lastPriority {
        current := current.prev;
      } else if node.lastPriority != null {
        current := node.lastPriority;
        Remember(node, null);
      } else {
        current := current.prev;
      }
      assert Foreground() == s.foreground && Excluded() == s.neverSelect;
    }

    /** Sets what a node remembers (null clears it). */
    method Remember(node: ScreenNode, screen: ScreenNode?)
      requires node in nodes
      modifies node`lastPriority
      ensures node.lastPriority == screen
      ensures Remembered() ==
        if screen == null then Forget(old(Remembered()), node) else old(Remembered())[node := screen]
    {
      node.lastPriority := screen;
    }

    method Remove(node: ScreenNode)
      requires Valid() && node in nodes
      modifies this, nodes
      ensures Valid()
      ensures View() == DoDisconnect(old(View()), node)
      ensures old(current) == node && node != tail ==>
        current == (if node == old(head) then old(node.prev) else old(node.next)) && current.stateChanged == 1
    {
      ghost var i := IndexOf(nodes, node);
      if node == tail { return; }
      HandOver(node, i);
      TakeOut(node, i);
    }

    /** Unlinks a node; the flag sets lose that node only. */
    method TakeOut(node: ScreenNode, ghost i: nat)
      requires Linked() && 0 < i < |nodes| && nodes[i] == node
      modifies this`head, this`numClients, this`nodes, nodes`next, nodes`prev
      ensures Linked() && nodes == Without(old(nodes), i) && tail == old(tail)
      ensures Foreground() == old(Foreground()) - {node} && Excluded() == old(Excluded()) - {node}
      ensures Remembered() == Forget(old(Remembered()), node)
    {
      ghost var before := nodes;
      ghost var foreground, excluded, remembered := Foreground(), Excluded(), Remembered();
      Unlink(node, i);
      WithoutMembers(before, i);
      FlagsWithout(node, before, foreground, excluded, remembered);
    }

    /** With one node less in `nodes` and every flag as before, the flag sets lose that node only. */
    lemma FlagsWithout(node: ScreenNode, before: seq<ScreenNode>, foreground: set<ScreenNode>,
                       excluded: set<ScreenNode>, remembered: map<ScreenNode, ScreenNode>)
      requires forall n :: n in nodes <==> n in before && n != node
      requires foreground == set n | n in before && n.usrForeground != 0
      requires excluded == set n | n in before && n.neverSelect == 1
      requires remembered == map n | n in before && n.lastPriority != null :: n.lastPriority
      ensures Foreground() == foreground - {node}
      ensures Excluded() == excluded - {node}
      ensures Remembered() == Forget(remembered, node)
    {}

    /** The display passes to a neighbour if the node that is leaving has it. */
    method HandOver(node: ScreenNode, ghost i: nat)
      requires Linked() && 0 < i < |nodes| && nodes[i] == node
      modifies this`current, nodes`stateChanged
      ensures current == if old(current) == node then Heir(nodes, i) else old(current)
      ensures old(current) == node ==> current == if node == head then node.prev else node.next
      ensures old(current) == node ==> current.stateChanged == 1
    {
      if current == node {
        if current != head {
          current := node.next;
        } else {
          current := node.prev;
        }
        current.stateChanged := 1;
      }
    }

    /** Takes a node out of both chains; flags stay as they are. */
    method Unlink(node: ScreenNode, ghost i: nat)
      requires Linked() && 0 < i < |nodes| && nodes[i] == node
      modifies this`head, this`numClients, this`nodes, nodes`next, nodes`prev
      ensures Linked() && nodes == Without(old(nodes), i) && tail == old(tail)
    {
      WithoutMembers(nodes, i);
      numClients := numClients - 1;
      if head != node {
        node.next.prev := node.prev;
        node.prev.next := node.next;
      } else {
        node.prev.next := tail;
        head := node.prev;
      }
      nodes := Without(nodes, i);
    }

    /** One screen back, from the tail on to the head. */
    method StepBack(ghost i: nat)
      requires Linked() && i < |nodes| && current == nodes[i]
      modifies this`current
      ensures current == nodes[Back(|nodes|, i, 1)]
    {
      if tail == current {
        current := head;
      } else {
        current := current.prev;
      }
    }

    /** Once round the ring, clearing every user-foreground flag. */
    method ClearRound(ghost i: nat)
      requires Linked() && i < |nodes| && current == nodes[i]
      modifies this`current, nodes`usrForeground
      ensures current == old(current)
      ensures Foreground() == {}
    {
      var screen := current;
      current.usrForeground := 0;
      ghost var n := |nodes|;
      StepBack(i);
      ghost var k := 1;
      while screen != current
        invariant Linked() && 1 <= k <= n && current == nodes[Back(n, i, k)]
        invariant forall e :: 0 <= e < k ==> nodes[Back(n, i, e)].usrForeground == 0
        decreases n - k
      {
        assert k != n;
        ClearOne(Back(n, i, k));
        k := k + 1;
      }
      assert k == n;
      forall x | x in nodes ensures x.usrForeground == 0 {
        var j :| 0 <= j < n && nodes[j] == x;
        assert Back(n, i, if j <= i then i - j else i - j + n) == j;
      }
    }

    method ClearOne(ghost i: nat)
      requires Linked() && i < |nodes| && current == nodes[i]
      modifies this`current, current`usrForeground
      ensures current == nodes[Back(|nodes|, i, 1)] && nodes[i].usrForeground == 0
    {
      current.usrForeground := 0;
      StepBack(i);
    }

    /** One pass of the cycling loop: every flag cleared, then one screen back. */
    method Hop(ghost i: nat)
      requires Linked() && i < |nodes| && current == nodes[i]
      modifies this`current, nodes`usrForeground
      ensures current == nodes[Back(|nodes|, i, 1)]
      ensures Foreground() == {}
    {
      ClearRound(i);
      StepBack(i);
    }

    /** The user's cycle key. It returns only if the ring has a screen to stop at. */
    method Cycle()
      requires Valid() && CanCycle(View())
      modifies this`current, nodes`usrForeground, nodes`lastPriority
      ensures Valid()
      ensures View() == DoCycle(old(View()))
      ensures current.usrForeground == 1
    {
      ghost var s, i := View(), IndexOf(nodes, current);
      ghost var d := Seek(s, i);
      LandingIs(s, i, d);
      Choose(current);
      assert Excluded() == s.neverSelect;
    }

    /** The cycling loop up to the point where it stops, `d` screens further back. */
    method Seek(ghost s: Screens<ScreenNode>, ghost i: nat) returns (ghost d: nat)
      requires Linked() && tail.neverSelect != 1 && s == View() && CanCycle(s)
      requires i < |nodes| && current == nodes[i]
      modifies this`current, nodes`usrForeground
      ensures 1 <= d <= |nodes| && current == nodes[Back(|nodes|, i, d)]
      ensures Selectable(s, Back(|nodes|, i, d))
      ensures Passed(s, i, d) && Foreground() == {}
    {
      CanCycleMeets(s, i);
      d := 0;
      var skip := true;
      while skip
        invariant Linked() && d <= |nodes| && current == nodes[Back(|nodes|, i, d)]
        invariant Passed(s, i, d) && (skip ==> d == 0 || !Selectable(s, Back(|nodes|, i, d)))
        invariant !skip ==> d >= 1 && Selectable(s, Back(|nodes|, i, d)) && Foreground() == {}
        decreases skip, |nodes| - d
      {
        MeetsLater(s, i, d);
        skip := HopAndTest(s, i, d);
        d := d + 1;
      }
    }

    /** One pass of the cycling loop, and whether it has to go on. */
    method HopAndTest(ghost s: Screens<ScreenNode>, ghost i: nat, ghost d: nat) returns (skip: bool)
      requires Linked() && s.order == nodes && s.neverSelect == Excluded()
      requires i < |nodes| && d < |nodes| && current == nodes[Back(|nodes|, i, d)]
      modifies this`current, nodes`usrForeground
      ensures current == nodes[Back(|nodes|, i, d + 1)] && skip == !Selectable(s, Back(|nodes|, i, d + 1))
      ensures Foreground() == {}
    {
      Hop(Back(|nodes|, i, d));
      skip := current.neverSelect == 1 || (numClients > 0 && current == tail);
      StopTest(s, Back(|nodes|, i, d + 1));
    }

    /** None of the screens less than `d` back can be selected. */
    ghost predicate Passed(s: Screens<ScreenNode>, i: nat, d: nat)
      requires i < |s.order| && d <= |s.order|
    {
      forall e :: 1 <= e < d ==> !Selectable(s, Back(|s.order|, i, e))
    }

    lemma MeetsLater(s: Screens<ScreenNode>, i: nat, d: nat)
      requires i < |s.order| && d <= |s.order| && Meets(s, i, 1)
      requires Passed(s, i, d) && (d == 0 || !Selectable(s, Back(|s.order|, i, d)))
      ensures d < |s.order| && Passed(s, i, d + 1)
    {
      var e :| 1 <= e <= |s.order| && Selectable(s, Back(|s.order|, i, e));
    }

    /** The test that ends the loop is `Selectable`. */
    lemma StopTest(s: Screens<ScreenNode>, j: nat)
      requires Linked() && s.order == nodes && s.neverSelect == Excluded() && j < |nodes|
      ensures (nodes[j].neverSelect == 1 || (numClients > 0 && nodes[j] == tail)) <==> !Selectable(s, j)
    {
      assert nodes[j] in nodes;
    }

    /** Marks the chosen screen as the user's. */
    method Choose(node: ScreenNode)
      requires node in nodes && Foreground() == {}
      modifies node`usrForeground, node`lastPriority
      ensures Foreground() == {node} && node.usrForeground == 1
      ensures Remembered() == old(Remembered())[node := node]
    {
      node.lastPriority := node;
      node.usrForeground := 1;
      assert node in Foreground();
    }

    /** Takes every client away, always the head first. */
    method Destroy() returns (removed: nat)
      requires Valid()
      modifies this, nodes
      ensures Linked() && nodes == [tail] && tail == old(tail)
      ensures removed == old(numClients)
    {
      removed := 0;
      while head != tail
        invariant Valid() && tail == old(tail)
        invariant removed + numClients == old(numClients)
        invariant nodes == old(nodes)[..|nodes|] && |nodes| <= |old(nodes)|
        decreases |nodes|
      {
        ghost var i := |nodes| - 1;
        IndexOfUnique(nodes, i);
        Remove(head);
        removed := removed + 1;
      }
      assert |nodes| == 1;
    }
  }
}
