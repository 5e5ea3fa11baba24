/**
The shape that the sending and receiving loops have in common: bytes are moved turn by turn until enough
have been moved, something stops the loop, or the program leaves.
*/
module Transfer {
  /** What one turn of a loop does: nothing, move up to `n` bytes, or end the loop. */
  datatype Turn = Pass | Take(n: nat) | Stop

  /** Bytes moved, turns used, and whether the loop was stopped. */
  datatype Outcome = Outcome(count: nat, used: nat, cut: bool)

  function Min(a: nat, b: nat): nat {
    if a < b then a else b
  }

  function Then(got: nat, rest: Outcome): Outcome {
    Outcome(got + rest.count, 1 + rest.used, rest.cut)
  }

  /** The loop for `len` bytes when `avail` are there to be moved. In a strict loop a turn that finds
      nothing to move stops it. */
  function Move<T>(f: T -> Turn, turns: seq<T>, len: nat, avail: nat, strict: bool): (o: Outcome)
    ensures o.used <= |turns| && o.count <= len && o.count <= avail
    ensures len > 0 && turns != [] ==> o.used > 0
    ensures o.cut ==> o.count < len && o.used > 0
    ensures !o.cut && o.count < len ==> o.used == |turns|
    decreases |turns|
  {
    if len == 0 || turns == [] then Outcome(0, 0, false)
    else match f(turns[0])
      case Pass => Then(0, Move(f, turns[1..], len, avail, strict))
      case Take(n) =>
        var got := Min(n, Min(len, avail));
        if strict && got == 0 then Outcome(0, 1, true)
        else Then(got, Move(f, turns[1..], len - got, avail - got, strict))
      case Stop => Outcome(0, 1, true)
  }

  /** A loop's outcome is what it has done so far, and then what the rest of it comes to. */
  predicate Continues(all: Outcome, count: nat, used: nat, rest: Outcome) {
    all == Outcome(count + rest.count, used + rest.used, rest.cut)
  }

  /** What one turn moves. */
  function Got(turn: Turn, len: nat, avail: nat): nat {
    if turn.Take? then Min(turn.n, Min(len, avail)) else 0
  }

  /** One more turn of a loop that is not strict. */
  lemma OneTurn<T>(all: Outcome, count: nat, used: nat, f: T -> Turn, turns: seq<T>, len: nat, avail: nat)
    requires Continues(all, count, used, Move(f, turns, len, avail, false)) && len > 0 && turns != []
    ensures var got := Got(f(turns[0]), len, avail);
      if f(turns[0]).Stop? then all == Outcome(count, used + 1, true)
      else Continues(all, count + got, used + 1, Move(f, turns[1..], len - got, avail - got, false))
  {}

  /** All that some turns would move if there were no limits. */
  function Offered<T>(f: T -> Turn, turns: seq<T>): nat {
    if turns == [] then 0 else (if f(turns[0]).Take? then f(turns[0]).n else 0) + Offered(f, turns[1..])
  }

  /** The number of turns that can move something. */
  function Takes<T>(f: T -> Turn, turns: seq<T>): nat {
    if turns == [] then 0 else (if f(turns[0]).Take? && f(turns[0]).n > 0 then 1 else 0) + Takes(f, turns[1..])
  }

  predicate Clear<T>(f: T -> Turn, turns: seq<T>) {
    forall i :: 0 <= i < |turns| ==> !f(turns[i]).Stop?
  }

  /** Exactly what was offered is moved, up to what was asked for and what was there. */
  lemma {:induction false} MoveCount<T>(f: T -> Turn, turns: seq<T>, len: nat, avail: nat, strict: bool)
    ensures var o := Move(f, turns, len, avail, strict);
      o.count == Min(Min(len, avail), Offered(f, turns[..o.used]))
    decreases |turns|
  {
    assert turns[..0] == [];
    if len > 0 && turns != [] {
      OfferedFirst(f, turns, Move(f, turns, len, avail, strict).used);
      if f(turns[0]).Pass? {
        MoveCount(f, turns[1..], len, avail, strict);
      } else if f(turns[0]).Take? {
        var got := Min(f(turns[0]).n, Min(len, avail));
        if !(strict && got == 0) { MoveCount(f, turns[1..], len - got, avail - got, strict); }
      }
    }
  }

  lemma OfferedFirst<T>(f: T -> Turn, turns: seq<T>, k: nat)
    requires 0 < k <= |turns|
    ensures Offered(f, turns[..k]) == (if f(turns[0]).Take? then f(turns[0]).n else 0) + Offered(f, turns[1..][..k - 1])
  {
    assert turns[..k][0] == turns[0] && turns[..k][1..] == turns[1..][..k - 1];
  }

  /** The loop ends at the first turn that stops it. */
  lemma {:induction false} MoveEnds<T>(f: T -> Turn, turns: seq<T>, len: nat, avail: nat)
    ensures var o := Move(f, turns, len, avail, false);
      && (o.cut <==> o.used > 0 && f(turns[o.used - 1]).Stop?)
      && (forall i :: 0 <= i < o.used && f(turns[i]).Stop? ==> i == o.used - 1)
    decreases |turns|
  {
    if len > 0 && turns != [] && !f(turns[0]).Stop? {
      var got := Got(f(turns[0]), len, avail);
      MoveEnds(f, turns[1..], len - got, avail - got);
      assert forall i :: 0 < i < |turns| ==> turns[i] == turns[1..][i - 1];
    }
  }

  /** It does not end a turn later than it has its bytes. */
  lemma {:induction false} MovePrompt<T>(f: T -> Turn, turns: seq<T>, len: nat, avail: nat, strict: bool)
    requires Move(f, turns, len, avail, strict).used > 0
    ensures avail < len || Offered(f, turns[..Move(f, turns, len, avail, strict).used - 1]) < len
    decreases |turns|
  {
    var o := Move(f, turns, len, avail, strict);
    if o.used > 1 && avail >= len {
      var n := if f(turns[0]).Take? then f(turns[0]).n else 0;
      OfferedFirst(f, turns, o.used - 1);
      MovePrompt(f, turns[1..], len - Min(n, len), avail - Min(n, len), strict);
    }
  }

  lemma {:induction false} TakesConcat<T>(f: T -> Turn, a: seq<T>, b: seq<T>)
    ensures Takes(f, a + b) == Takes(f, a) + Takes(f, b)
  {
    if a == [] {
      assert a + b == b;
    } else {
      assert (a + b)[1..] == a[1..] + b;
      TakesConcat(f, a[1..], b);
    }
  }

  lemma TakesSplit<T>(f: T -> Turn, turns: seq<T>, k: nat)
    requires k <= |turns|
    ensures Takes(f, turns) == Takes(f, turns[..k]) + Takes(f, turns[k..])
  {
    TakesConcat(f, turns[..k], turns[k..]);
    assert turns[..k] + turns[k..] == turns;
  }

  lemma TakesFirst<T>(f: T -> Turn, turns: seq<T>, k: nat)
    requires 0 < k <= |turns|
    ensures Takes(f, turns[..k]) ==
      (if f(turns[0]).Take? && f(turns[0]).n > 0 then 1 else 0) + Takes(f, turns[1..][..k - 1])
  {
    assert turns[..k][0] == turns[0] && turns[..k][1..] == turns[1..][..k - 1];
  }

  /** Every turn that can move something does so, while there is something to move. */
  lemma {:induction false} MoveReads<T>(f: T -> Turn, turns: seq<T>, len: nat, avail: nat)
    ensures var o := Move(f, turns, len, avail, false);
      Takes(f, turns[..o.used]) <= o.count || (o.count == avail && avail < len)
    decreases |turns|
  {
    var o := Move(f, turns, len, avail, false);
    if len > 0 && turns != [] {
      TakesFirst(f, turns, o.used);
      var got := Got(f(turns[0]), len, avail);
      if !f(turns[0]).Stop? { MoveReads(f, turns[1..], len - got, avail - got); }
    }
  }

  lemma {:induction false} ClearNotCut<T>(f: T -> Turn, turns: seq<T>, len: nat, avail: nat)
    requires Clear(f, turns)
    ensures !Move(f, turns, len, avail, false).cut
  {
    MoveEnds(f, turns, len, avail);
  }

  /** Enough turns that nothing stops move all bytes, and no more turns are needed than bytes moved. */
  lemma EnoughTurns<T>(f: T -> Turn, turns: seq<T>, len: nat, avail: nat)
    requires Clear(f, turns) && Takes(f, turns) >= len && len <= avail
    ensures var o := Move(f, turns, len, avail, false);
      o.count == len && Takes(f, turns[o.used..]) + len >= Takes(f, turns) && Clear(f, turns[o.used..])
  {
    var o := Move(f, turns, len, avail, false);
    ClearNotCut(f, turns, len, avail);
    MoveReads(f, turns, len, avail);
    TakesSplit(f, turns, o.used);
    assert turns[..|turns|] == turns;
  }

  /** Reading again and again, `size` bytes at a time, up to the first time that falls short. */
  function Drain<T>(f: T -> Turn, turns: seq<T>, size: nat, avail: nat): (bytes: nat)
    requires size > 0
    ensures bytes <= avail
    decreases |turns|
  {
    if turns == [] then 0
    else
      var o := Move(f, turns, size, avail, false);
      if o.count < size then o.count else o.count + Drain(f, turns[o.used..], size, avail - o.count)
  }

  /** If nothing stops it, it reads a byte a turn at least, as long as there are any. */
  lemma {:induction false} DrainReads<T>(f: T -> Turn, turns: seq<T>, size: nat, avail: nat)
    requires size > 0 && Clear(f, turns)
    ensures Drain(f, turns, size, avail) >= Min(avail, Takes(f, turns))
    decreases |turns|
  {
    if turns != [] {
      var o := Move(f, turns, size, avail, false);
      ClearNotCut(f, turns, size, avail);
      MoveReads(f, turns, size, avail);
      TakesSplit(f, turns, o.used);
      if o.count < size {
        assert turns[..o.used] == turns;
      } else {
        DrainReads(f, turns[o.used..], size, avail - o.count);
      }
    }
  }

  /** A turn that stops the loop ends it, unless it has its bytes. */
  lemma {:induction false} MoveStopped<T>(f: T -> Turn, a: seq<T>, s: T, b: seq<T>, len: nat, avail: nat)
    requires Clear(f, a) && f(s).Stop?
    ensures var o := Move(f, a, len, avail, false);
      Move(f, a + ([s] + b), len, avail, false) == if o.count == len then o else Outcome(o.count, |a| + 1, true)
    decreases |a|
  {
    if a == [] {
      assert a + ([s] + b) == [s] + b;
    } else {
      assert (a + ([s] + b))[1..] == a[1..] + ([s] + b);
      var got := Got(f(a[0]), len, avail);
      if len > 0 { MoveStopped(f, a[1..], s, b, len - got, avail - got); }
    }
  }

  /** After the first turn that stops it nothing more is read, whatever might follow. */
  lemma {:induction false} DrainStops<T>(f: T -> Turn, a: seq<T>, s: T, b: seq<T>, size: nat, avail: nat)
    requires size > 0 && Clear(f, a) && f(s).Stop?
    ensures Drain(f, a + ([s] + b), size, avail) == Drain(f, a, size, avail)
    decreases |a|
  {
    var o := Move(f, a, size, avail, false);
    MoveStopped(f, a, s, b, size, avail);
    if o.count == size && a != [] {
      assert (a + ([s] + b))[o.used..] == a[o.used..] + ([s] + b);
      DrainStops(f, a[o.used..], s, b, size, avail - o.count);
    }
  }
}
