/**
The file tail client: a ring of line buffers filled by line reads, and the rows shown from it.
*/
module Tail {
  import opened Sequences
  import opened Scan

  const ROWS: int := 7

  datatype Row = Row(text: string, row: int)

  /** Each buffer loses its last character, whatever it is. */
  function Chop(s: string): string {
    if s == [] then [] else s[..|s| - 1]
  }

  function Chopped(texts: seq<string>): seq<string> {
    seq(|texts|, i requires 0 <= i < |texts| => Chop(texts[i]))
  }

  /** Texts one below the other. */
  function Rows(texts: seq<string>, first: int): seq<Row> {
    seq(|texts|, i requires 0 <= i < |texts| => Row(texts[i], first + i))
  }

  function Last(chunks: seq<string>, n: nat): seq<string> {
    if |chunks| <= n then chunks else chunks[|chunks| - n..]
  }

  /** What is shown: the last chunks, in the order of the file, at the bottom of the display if the ring
      has been filled and from the top otherwise. */
  function Shown(chunks: seq<string>, lines: nat): (rows: seq<Row>) {
    Rows(Chopped(Last(chunks, lines)), if |chunks| >= lines then ROWS - lines else 1)
  }

  predicate EndsLine(s: string) {
    s != [] && s[|s| - 1] == '\n'
  }

  /** A chunk without its line end, if it has one. */
  function Trim(s: string): string {
    if EndsLine(s) then s[..|s| - 1] else s
  }

  lemma {:induction false} ChunksAreNotEmpty(text: string, room: nat)
    requires room > 0
    ensures forall i :: 0 <= i < |Chunks(text, room)| ==> Chunks(text, room)[i] != []
    decreases |text|
  {
    if text != [] { ChunksAreNotEmpty(text[LineLength(text, room)..], room); }
  }

  /** Nothing but line ends is dropped exactly if every chunk shown ends a line; a last line without an
      end, or a line longer than the buffer, loses a character. */
  lemma {:induction false} NothingLostIff(text: string, lines: nat, room: nat)
    requires room > 0
    ensures var chunks := Chunks(text, room); var last := Last(chunks, lines);
      (forall i :: 0 <= i < |last| ==> Shown(chunks, lines)[i].text == Trim(last[i]))
      <==> forall i :: 0 <= i < |last| ==> EndsLine(last[i])
  {
    var chunks := Chunks(text, room);
    var last := Last(chunks, lines);
    ChunksAreNotEmpty(text, room);
    forall i | 0 <= i < |last|
      ensures Shown(chunks, lines)[i].text == Trim(last[i]) <==> EndsLine(last[i])
    {
      assert last[i] != [];
      assert |Chop(last[i])| == |last[i]| - 1;
    }
  }

  lemma {:induction false} ChunksOfLines(whole: seq<string>, room: nat)
    requires forall i :: 0 <= i < |whole| ==> EndsLine(whole[i]) && '\n' !in Chop(whole[i]) && |whole[i]| <= room
    requires room > 0
    ensures Chunks(Flat(whole), room) == whole
  {
    if whole != [] {
      var rest := Flat(whole[1..]);
      LineLengthOfLine(whole[0], rest, room);
      assert (whole[0] + rest)[..|whole[0]|] == whole[0] && (whole[0] + rest)[|whole[0]|..] == rest;
      ChunksOfLines(whole[1..], room);
    }
  }

  /** A file of lines that fit the buffer is shown by its last lines, in order, without their ends and on
      successive rows, the last of them at the bottom of the display when there are enough, and otherwise the
      first of them on the second row. */
  lemma {:induction false} ShowsLastLines(whole: seq<string>, lines: nat, room: nat)
    requires forall i :: 0 <= i < |whole| ==> EndsLine(whole[i]) && '\n' !in Chop(whole[i]) && |whole[i]| <= room
    requires room > 0
    ensures var rows := Shown(Chunks(Flat(whole), room), lines);
      && |rows| == (if |whole| < lines then |whole| else lines)
      && (forall i :: 0 <= i < |rows| ==> rows[i].text + "\n" == whole[|whole| - |rows| + i])
      && (forall i :: 0 < i < |rows| ==> rows[i].row == rows[i - 1].row + 1)
      && (rows != [] && |whole| >= lines ==> rows[|rows| - 1].row == ROWS - 1)
      && (rows != [] && |whole| < lines ==> rows[0].row == 1)
  {
    ChunksOfLines(whole, room);
    ShowsWithoutEnds(whole, lines);
  }

  lemma ShowsWithoutEnds(whole: seq<string>, lines: nat)
    requires forall i :: 0 <= i < |whole| ==> EndsLine(whole[i])
    ensures var rows := Shown(whole, lines);
      && |rows| == (if |whole| < lines then |whole| else lines)
      && (forall i :: 0 <= i < |rows| ==> rows[i].text + "\n" == whole[|whole| - |rows| + i])
  {
    var rows := Shown(whole, lines);
    forall i | 0 <= i < |rows| ensures rows[i].text + "\n" == whole[|whole| - |rows| + i] {
      ShownAt(whole, lines, i);
      WithEnd(whole[|whole| - |rows| + i]);
    }
  }

  lemma ShownAt(whole: seq<string>, lines: nat, i: nat)
    requires i < |Shown(whole, lines)|
    ensures var rows := Shown(whole, lines); |rows| <= |whole| && rows[i].text == Chop(whole[|whole| - |rows| + i])
  {}

  lemma WithEnd(line: string)
    requires EndsLine(line)
    ensures Chop(line) + "\n" == line
  {}

  /** The ring after some chunks: `tail` is where the next one goes, and, once it has been filled, where
      the oldest is. */
  ghost predicate Ring(buffer: seq<string>, chunks: seq<string>, tail: nat, head: bool) {
    && tail < |buffer|
    && (head <==> |chunks| >= |buffer|)
    && (if head then buffer[tail..] + buffer[..tail] == Last(chunks, |buffer|) else buffer[..tail] == chunks)
  }

  lemma RingStep(buffer: seq<string>, chunks: seq<string>, tail: nat, head: bool, c: string)
    requires Ring(buffer, chunks, tail, head)
    ensures var wrap := tail + 1 >= |buffer|;
      Ring(buffer[tail := c], chunks + [c], if wrap then 0 else tail + 1, head || wrap)
  {
    var n := |buffer|;
    var next := buffer[tail := c];
    assert next[..tail] == buffer[..tail] && next[tail + 1..] == buffer[tail + 1..];
    if head {
      var last := Last(chunks, n);
      assert last == [buffer[tail]] + buffer[tail + 1..] + buffer[..tail];
      assert Last(chunks + [c], n) == last[1..] + [c];
      assert last[1..] == buffer[tail + 1..] + buffer[..tail];
      assert next[tail + 1..] + next[..tail + 1] == last[1..] + [c];
      if tail + 1 == n { assert next[0..] + next[..0] == next[tail + 1..] + next[..tail + 1]; }
    } else {
      assert next[..tail + 1] == chunks + [c];
      if tail + 1 == n { assert next[0..] + next[..0] == chunks + [c]; }
    }
  }

  lemma FirstChunk(chunks: seq<string>, rest: string, room: nat)
    requires room > 0 && rest != []
    ensures var n := LineLength(rest, room);
      chunks + Chunks(rest, room) == chunks + [rest[..n]] + Chunks(rest[n..], room)
  {}

  method Fill(text: string, buffer: array<string>, room: nat) returns (tail: nat, head: bool)
    requires room > 0 && buffer.Length > 0
    modifies buffer
    ensures Ring(buffer[..], Chunks(text, room), tail, head)
  {
    var rest := text;
    ghost var chunks := [];
    tail, head := 0, false;
    while rest != []
      invariant Chunks(text, room) == chunks + Chunks(rest, room)
      invariant Ring(buffer[..], chunks, tail, head)
      decreases |rest|
    {
      var n := LineLength(rest, room);
      var chunk := rest[..n];
      RingStep(buffer[..], chunks, tail, head, chunk);
      FirstChunk(chunks, rest, room);
      buffer[tail] := chunk;
      chunks := chunks + [chunk];
      rest := rest[n..];
      tail := tail + 1;
      if tail >= buffer.Length {
        tail, head := 0, true;
      }
    }
  }

  method Clean(buffer: array<string>)
    modifies buffer
    ensures buffer[..] == Chopped(old(buffer[..]))
  {
    for i := 0 to buffer.Length
      invariant forall j :: 0 <= j < buffer.Length ==>
        buffer[j] == if j < i then Chop(old(buffer[j])) else old(buffer[j])
    {
      buffer[i] := Chop(buffer[i]);
    }
  }

  method Render(buffer: array<string>, from: nat, to: nat, first: int) returns (rows: seq<Row>)
    requires from <= to <= buffer.Length
    ensures rows == Rows(buffer[..][from..to], first)
  {
    rows := [];
    for i := from to to
      invariant rows == Rows(buffer[..][from..i], first)
    {
      rows := rows + [Row(buffer[i], first + (i - from))];
    }
  }

  /** `buffer` comes with whatever its lines held before. */
  method Tail(text: string, buffer: array<string>, room: nat) returns (rows: seq<Row>)
    requires room > 0 && buffer.Length > 0
    modifies buffer
    ensures rows == Shown(Chunks(text, room), buffer.Length)
  {
    var tail, head := Fill(text, buffer, room);
    ghost var was := buffer[..];
    Clean(buffer);
    if head {
      ChoppedRing(was, tail);
      rows := RenderRing(buffer, tail, ROWS - buffer.Length);
    } else {
      ChoppedFront(was, tail);
      rows := Render(buffer, 0, tail, 1);
    }
  }

  /** The oldest line is at the tail of the ring. */
  method RenderRing(buffer: array<string>, tail: nat, v: int) returns (rows: seq<Row>)
    requires tail <= buffer.Length
    ensures rows == Rows(buffer[..][tail..] + buffer[..][..tail], v)
  {
    var older := Render(buffer, tail, buffer.Length, v);
    var newer := Render(buffer, 0, tail, v + (buffer.Length - tail));
    rows := older + newer;
    RowsConcat(buffer[..][tail..], buffer[..][..tail], v);
  }

  lemma ChoppedFront(buffer: seq<string>, tail: nat)
    requires tail <= |buffer|
    ensures Chopped(buffer)[0..tail] == Chopped(buffer[..tail])
  {}

  lemma ChoppedRing(buffer: seq<string>, tail: nat)
    requires tail <= |buffer|
    ensures Chopped(buffer)[tail..] + Chopped(buffer)[..tail] == Chopped(buffer[tail..] + buffer[..tail])
  {}

  lemma RowsConcat(a: seq<string>, b: seq<string>, first: int)
    ensures Rows(a, first) + Rows(b, first + |a|) == Rows(a + b, first)
  {}
}
