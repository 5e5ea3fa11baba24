/**
Exactly when loading a configuration file gives back what was saved, for every store.
*/
module ConfigRoundTrip {
  import opened Sequences
  import opened Text
  import opened ConfigModel
  import opened ConfigText

  // Printed text is a run of pieces; a piece whose line end was cut off runs into the next one.

  datatype Piece = Piece(body: string, ended: bool)

  const BLANK := Piece("", true)

  function ItemPiece(item: Item): Piece {
    Piece(Cut(ItemLine(item)), EndFits(item))
  }

  function TitlePiece(name: string): Piece {
    var title := TitleLine(name);
    Piece(if TitleFits(name) then title else title[..LINE_SIZE - 2], |name| + 4 < LINE_SIZE)
  }

  function ItemPieces(items: seq<Item>): seq<Piece> {
    if items == [] then [] else [ItemPiece(items[0])] + ItemPieces(items[1..])
  }

  function Pieces(store: Store): seq<Piece> {
    if store == [] then []
    else [BLANK, TitlePiece(store[0].name)] + (ItemPieces(store[0].items) + Pieces(store[1..]))
  }

  function PieceText(p: Piece): string {
    p.body + if p.ended then "\n" else ""
  }

  function TextOf(pieces: seq<Piece>): string {
    if pieces == [] then [] else PieceText(pieces[0]) + TextOf(pieces[1..])
  }

  lemma {:induction false} TextOfConcat(a: seq<Piece>, b: seq<Piece>)
    ensures TextOf(a + b) == TextOf(a) + TextOf(b)
  {
    if a == [] {
      assert a + b == b;
    } else {
      assert (a + b)[1..] == a[1..] + b;
      TextOfConcat(a[1..], b);
      Assoc(PieceText(a[0]), TextOf(a[1..]), TextOf(b));
    }
  }

  lemma {:induction false} ItemPiecesText(items: seq<Item>)
    ensures TextOf(ItemPieces(items)) == PrintItems(items)
  {
    if items != [] {
      ItemPiecesText(items[1..]);
      assert PieceText(ItemPiece(items[0])) == Cut(ItemLine(items[0]) + "\n");
    }
  }

  lemma TitleText(name: string)
    ensures TextOf([BLANK, TitlePiece(name)]) == Cut("\n" + TitleLine(name) + "\n")
  {
    var title, p := TitleLine(name), TitlePiece(name);
    assert [BLANK, p][1..] == [p] && [p][1..] == [];
    assert TextOf([p]) == PieceText(p);
    assert TextOf([BLANK, p]) == "\n" + PieceText(p);
    if !p.ended { assert ("\n" + title + "\n")[..LINE_SIZE - 1] == "\n" + p.body; }
  }

  lemma {:induction false} PiecesText(store: Store)
    ensures TextOf(Pieces(store)) == PrintSections(store)
  {
    if store != [] {
      var s := store[0];
      PiecesText(store[1..]);
      TitleText(s.name);
      ItemPiecesText(s.items);
      TextOfConcat(ItemPieces(s.items), Pieces(store[1..]));
      TextOfConcat([BLANK, TitlePiece(s.name)], ItemPieces(s.items) + Pieces(store[1..]));
      Assoc(Cut("\n" + TitleLine(s.name) + "\n"), PrintItems(s.items), PrintSections(store[1..]));
    }
  }

  function NonEmpty(s: string): seq<string> {
    if s == [] then [] else [s]
  }

  /** The lines that pieces make up, after some text on the first of them. */
  function Merge(pre: string, pieces: seq<Piece>): seq<string>
    decreases |pieces|
  {
    if pieces == [] then NonEmpty(pre)
    else if pieces[0].ended then NonEmpty(pre + pieces[0].body) + Merge([], pieces[1..])
    else Merge(pre + pieces[0].body, pieces[1..])
  }

  lemma {:induction false} SpanOutAt(a: string, rest: string, d: set<char>)
    requires Free(a, d) && (rest == [] || rest[0] in d)
    ensures SpanOut(a + rest, d) == |a|
  {
    if a == [] {
      assert a + rest == rest;
    } else {
      assert (a + rest)[1..] == a[1..] + rest;
      SpanOutAt(a[1..], rest, d);
    }
  }

  lemma TokensOfLine(line: string, rest: string)
    requires OneLine(line)
    ensures Tokens(line + "\n" + rest, NEWLINE) == (if line == [] then [] else [line]) + Tokens(rest, NEWLINE)
  {
    var s := line + "\n" + rest;
    if line == [] {
      assert s[0] == '\n' && s[1..] == rest;
      assert SkipIn(s, NEWLINE) == SkipIn(rest, NEWLINE);
      assert NextToken(s, NEWLINE) == NextToken(rest, NEWLINE);
    } else {
      assert s[0] == line[0];
      assert s == line + ("\n" + rest);
      SpanOutAt(line, "\n" + rest, NEWLINE);
      assert s[..|line|] == line && s[|line| + 1..] == rest;
      assert NextToken(s, NEWLINE) == (Some(line), rest);
    }
  }

  lemma TokensOfLastLine(line: string)
    requires OneLine(line)
    ensures Tokens(line, NEWLINE) == NonEmpty(line)
  {
    SpanOutAt(line, [], NEWLINE);
    assert line + [] == line;
    if line != [] { assert NextToken(line, NEWLINE) == (Some(line), []); }
  }

  predicate OneLinePieces(pieces: seq<Piece>) {
    forall i :: 0 <= i < |pieces| ==> OneLine(pieces[i].body) && (pieces[i].body == [] ==> pieces[i].ended)
  }

  lemma {:induction false} TokensOfPieces(pre: string, pieces: seq<Piece>)
    requires OneLine(pre) && OneLinePieces(pieces)
    ensures Tokens(pre + TextOf(pieces), NEWLINE) == Merge(pre, pieces)
    decreases |pieces|
  {
    if pieces == [] {
      assert pre + [] == pre;
      TokensOfLastLine(pre);
    } else {
      var p, rest := pieces[0], TextOf(pieces[1..]);
      Assoc(pre, PieceText(p), rest);
      if p.ended {
        Assoc(pre, p.body, "\n");
        TokensOfLine(pre + p.body, rest);
        TokensOfPieces([], pieces[1..]);
        assert [] + rest == rest;
      } else {
        assert PieceText(p) == p.body;
        TokensOfPieces(pre + p.body, pieces[1..]);
      }
    }
  }

  lemma {:induction false} PiecesOneLine(store: Store)
    requires CleanStore(store)
    ensures OneLinePieces(Pieces(store))
  {
    if store != [] {
      PiecesOneLine(store[1..]);
      ItemPiecesOneLine(store[0].items);
    }
  }

  lemma {:induction false} ItemPiecesOneLine(items: seq<Item>)
    requires CleanItems(items)
    ensures OneLinePieces(ItemPieces(items))
  {
    if items != [] {
      assert CleanItem(items[0]);
      ItemPiecesOneLine(items[1..]);
    }
  }

  /** The lines if no piece runs into the next. */
  function Bodies(pieces: seq<Piece>): seq<string> {
    if pieces == [] then [] else NonEmpty(pieces[0].body) + Bodies(pieces[1..])
  }

  predicate Separate(pieces: seq<Piece>) {
    |pieces| < 2 || ((pieces[0].ended || pieces[1].body == []) && Separate(pieces[1..]))
  }

  lemma NonEmptyConcat(a: string, b: string)
    ensures |NonEmpty(a + b)| <= |NonEmpty(a)| + |NonEmpty(b)|
    ensures |NonEmpty(a + b)| == |NonEmpty(a)| + |NonEmpty(b)| <==> a == [] || b == []
  {
    if a == [] { assert a + b == b; }
    if b == [] { assert a + b == a; }
  }

  /** Running into each other loses lines. */
  lemma {:induction false} MergeCount(pre: string, pieces: seq<Piece>)
    requires OneLinePieces(pieces)
    ensures |Merge(pre, pieces)| <= |NonEmpty(pre)| + |Bodies(pieces)|
    ensures |Merge(pre, pieces)| == |NonEmpty(pre)| + |Bodies(pieces)| ==>
      Separate(pieces) && (pre != [] && pieces != [] ==> pieces[0].body == [])
    decreases |pieces|
  {
    if pieces != [] {
      var p := pieces[0];
      NonEmptyConcat(pre, p.body);
      MergeCount(if p.ended then [] else pre + p.body, pieces[1..]);
    }
  }

  /** If none is lost, the lines are the pieces. */
  lemma {:induction false} MergeSeparate(pre: string, pieces: seq<Piece>)
    requires OneLinePieces(pieces) && Separate(pieces) && (pre != [] && pieces != [] ==> pieces[0].body == [])
    ensures Merge(pre, pieces) == NonEmpty(pre) + Bodies(pieces)
    decreases |pieces|
  {
    if pieces != [] {
      var p := pieces[0];
      if p.ended {
        MergeSeparate([], pieces[1..]);
        if pre == [] { assert pre + p.body == p.body; } else { assert pre + p.body == pre; }
      } else {
        assert pre + p.body == p.body;
        MergeSeparate(p.body, pieces[1..]);
      }
    }
  }

  predicate EndsFit(store: Store) {
    forall i :: 0 <= i < |store| ==> SectionEndsFit(store[i])
  }

  lemma EndsFitCons(store: Store)
    requires store != []
    ensures EndsFit(store) <==> SectionEndsFit(store[0]) && EndsFit(store[1..])
  {
    if SectionEndsFit(store[0]) && EndsFit(store[1..]) {
      forall i | 0 <= i < |store| ensures SectionEndsFit(store[i]) {
        if i > 0 { assert SectionEndsFit(store[1..][i - 1]); }
      }
    }
  }

  lemma SeparateCons(p: Piece, q: Piece, rest: seq<Piece>)
    ensures Separate([p] + ([q] + rest)) <==> (p.ended || q.body == []) && Separate([q] + rest)
  {
    assert ([p] + ([q] + rest))[1..] == [q] + rest;
  }

  lemma SeparateBefore(p: Piece, rest: seq<Piece>)
    requires rest == [] || rest[0] == BLANK
    ensures Separate([p] + rest) <==> Separate(rest)
  {
    if rest != [] {
      SeparateCons(p, BLANK, rest[1..]);
      assert [BLANK] + rest[1..] == rest;
    }
  }

  lemma {:induction false} SeparateItems(p: Piece, items: seq<Item>, rest: seq<Piece>)
    requires rest == [] || rest[0] == BLANK
    ensures Separate([p] + (ItemPieces(items) + rest)) <==>
      Separate(rest) && ItemEndsFit(items) && (items != [] ==> p.ended)
    decreases |items|
  {
    if items == [] {
      assert ItemPieces(items) + rest == rest;
      SeparateBefore(p, rest);
    } else {
      var q := ItemPiece(items[0]);
      Assoc([q], ItemPieces(items[1..]), rest);
      SeparateCons(p, q, ItemPieces(items[1..]) + rest);
      SeparateItems(q, items[1..], rest);
      ItemEndsFitCons(items);
    }
  }

  lemma ItemEndsFitCons(items: seq<Item>)
    requires items != []
    ensures ItemEndsFit(items) <==> ItemEndsFit(items[1..]) && (|items| > 1 ==> EndFits(items[0]))
  {
    if ItemEndsFit(items) {
      forall j | 0 <= j < |items[1..]| - 1 ensures EndFits(items[1..][j]) { assert EndFits(items[j + 1]); }
    }
    if ItemEndsFit(items[1..]) && (|items| > 1 ==> EndFits(items[0])) {
      forall j | 0 <= j < |items| - 1 ensures EndFits(items[j]) {
        if j > 0 { assert EndFits(items[1..][j - 1]); }
      }
    }
  }

  lemma {:induction false} SeparateIff(store: Store)
    ensures Separate(Pieces(store)) <==> EndsFit(store)
  {
    if store != [] {
      var s, title := store[0], TitlePiece(store[0].name);
      var rest := Pieces(store[1..]);
      SeparateIff(store[1..]);
      EndsFitCons(store);
      SeparateItems(title, s.items, rest);
      SeparateCons(BLANK, title, ItemPieces(s.items) + rest);
      TwoInFront(BLANK, title, ItemPieces(s.items) + rest);
    }
  }

  lemma TwoInFront<T>(a: T, b: T, s: seq<T>)
    ensures [a, b] + s == [a] + ([b] + s)
  {}

  // What the parser makes of the lines of a clean store.

  function ItemLines(items: seq<Item>): seq<string> {
    if items == [] then [] else [Cut(ItemLine(items[0]))] + ItemLines(items[1..])
  }

  function SectionLines(store: Store): seq<string> {
    if store == [] then []
    else [TitlePiece(store[0].name).body] + (ItemLines(store[0].items) + SectionLines(store[1..]))
  }

  lemma {:induction false} BodiesConcat(a: seq<Piece>, b: seq<Piece>)
    ensures Bodies(a + b) == Bodies(a) + Bodies(b)
  {
    if a == [] {
      assert a + b == b;
    } else {
      assert (a + b)[1..] == a[1..] + b;
      BodiesConcat(a[1..], b);
      Assoc(NonEmpty(a[0].body), Bodies(a[1..]), Bodies(b));
    }
  }

  lemma {:induction false} BodiesOfItems(items: seq<Item>)
    ensures Bodies(ItemPieces(items)) == ItemLines(items) && |ItemLines(items)| == |items|
  {
    if items != [] { BodiesOfItems(items[1..]); }
  }

  lemma BodiesOfTitle(title: Piece, rest: seq<Piece>)
    requires title.body != []
    ensures Bodies([BLANK, title] + rest) == [title.body] + Bodies(rest)
  {
    var all := [BLANK, title] + rest;
    assert all[1..] == [title] + rest && all[1..][1..] == rest;
    assert Bodies(all) == Bodies(all[1..]);
  }

  lemma {:induction false} BodiesAreLines(store: Store)
    ensures Bodies(Pieces(store)) == SectionLines(store)
  {
    if store != [] {
      var s, rest := store[0], Pieces(store[1..]);
      var title := TitlePiece(s.name);
      BodiesAreLines(store[1..]);
      BodiesOfItems(s.items);
      BodiesConcat(ItemPieces(s.items), rest);
      BodiesOfTitle(title, ItemPieces(s.items) + rest);
    }
  }

  /** The write that the parser makes of one printed item, if any. */
  function Reread(item: Item): Option<Item> {
    match LineOp(State([], None), Cut(ItemLine(item)))
    case Ok(Some(op)) => op.write
    case _ => None
  }

  function Somes<T>(options: seq<Option<T>>): (s: seq<T>)
    ensures |s| <= |options|
  {
    if options == [] then []
    else (match options[0] case None => [] case Some(v) => [v]) + Somes(options[1..])
  }

  function Rereads(items: seq<Item>): (w: seq<Item>)
    ensures |w| <= |items|
  {
    Somes(Mapped(Reread, items))
  }

  lemma {:induction false} SomesSame<T>(options: seq<Option<T>>, s: seq<T>)
    requires |options| == |s|
    ensures Somes(options) == s <==> forall j :: 0 <= j < |s| ==> options[j] == Some(s[j])
  {
    if s != [] {
      SomesSame(options[1..], s[1..]);
      assert forall j :: 0 < j < |s| ==> options[j] == options[1..][j - 1] && s[j] == s[1..][j - 1];
      if options[0].Some? {
        var r := [options[0].value] + Somes(options[1..]);
        assert r == s <==> options[0].value == s[0] && Somes(options[1..]) == s[1..] by {
          assert r[0] == options[0].value && r[1..] == Somes(options[1..]);
          assert s == [s[0]] + s[1..];
        }
      }
      if forall j :: 0 <= j < |s| ==> options[j] == Some(s[j]) {
        forall j | 0 <= j < |s[1..]| ensures options[1..][j] == Some(s[1..][j]) {
          assert options[j + 1] == Some(s[j + 1]);
        }
      }
    }
  }

  lemma LineOpOfItem(st: State, item: Item)
    requires CleanItem(item)
    ensures LineOp(st, Cut(ItemLine(item))) ==
      Ok(match Reread(item) case None => None case Some(w) => Some(Op(Target(st), Some(w))))
  {
    NoBracket(item);
    var start := TrimLeft(Cut(ItemLine(item)));
    assert ']' !in start;
  }

  lemma NoBracket(item: Item)
    requires CleanItem(item)
    ensures ']' !in Cut(ItemLine(item))
  {
    assert ItemLine(item) == if IsComment(item) then item.key else item.key + ": " + item.value;
  }

  lemma WholeToken(s: string)
    requires Free(s, SEPARATORS)
    ensures NextToken(s, SEPARATORS) == if s == [] then (None, "") else (Some(s), "")
  {
    SpanOutAt(s, [], SEPARATORS);
    assert s + [] == s;
  }

  lemma TrimBlank(s: string)
    requires s == [] || !IsSpace(s[0])
    ensures TrimLeft(" " + s) == s
  {
    assert (" " + s)[1..] == s;
  }

  lemma KeyToken(key: string, tail: string)
    requires Clean(key) && key != []
    ensures NextToken(key + (":" + tail), SEPARATORS) == (Some(key), tail)
  {
    var s := key + (":" + tail);
    SpanOutAt(key, ":" + tail, SEPARATORS);
    assert s[0] == key[0];
    assert s[..|key|] == key && s[|key| + 1..] == tail;
  }

  /** The value part of a printed item, cut to some length, as the second token. */
  lemma ValueToken(value: string, n: nat)
    requires Clean(value) && n <= |value| + 1
    ensures Cleaned(NextToken((" " + value)[..n], SEPARATORS).0) == if n == 0 then "" else value[..n - 1]
    ensures NextToken((" " + value)[..n], SEPARATORS).1 == ""
  {
    var tail := (" " + value)[..n];
    WholeToken(tail);
    if n > 0 {
      assert tail == " " + value[..n - 1];
      TrimBlank(value[..n - 1]);
    }
  }

  lemma RereadOfWord(item: Item)
    requires CleanItem(item) && item.key != [] && item.key[0] != '#'
    requires IsComment(item) || |item.key| >= LINE_SIZE - 1
    ensures Reread(item) == Some(Item(Cut(item.key), ""))
  {
    var line := Cut(ItemLine(item));
    NoBracket(item);
    assert line == if |item.key| < LINE_SIZE then item.key else item.key[..LINE_SIZE - 1];
    WholeToken(line);
    assert TrimLeft(line) == line;
  }

  lemma RereadOfPair(item: Item)
    requires CleanItem(item) && item.key != [] && item.key[0] != '#' && !IsComment(item)
    requires |item.key| < LINE_SIZE - 1
    ensures var room := LINE_SIZE - 2 - |item.key|;
      Reread(item) == Some(Item(item.key, if |item.value| < room then item.value
                                          else if room == 0 then "" else item.value[..room - 1]))
  {
    var key, value, line := item.key, item.value, Cut(ItemLine(item));
    var room := LINE_SIZE - 2 - |key|;
    var n := if |value| < room then |value| + 1 else room;
    var tail := (" " + value)[..n];
    NoBracket(item);
    CutPair(item, n);
    ValueToken(value, n);
    assert value[..|value|] == value;
    PairLine(line, key, tail);
  }

  /** A line of a key, a colon and something else. */
  lemma PairLine(line: string, key: string, tail: string)
    requires line == key + (":" + tail) && ']' !in line && Clean(key) && key != [] && key[0] != '#'
    ensures LineOp(State([], None), line) ==
      Ok(Some(Op(GLOBAL, Some(Item(key, Cleaned(NextToken(tail, SEPARATORS).0))))))
  {
    KeyToken(key, tail);
    assert line[0] == key[0];
    assert TrimLeft(line) == line && TrimLeft(key) == key;
  }

  lemma CutPair(item: Item, n: nat)
    requires !IsComment(item) && |item.key| < LINE_SIZE - 1
    requires var room := LINE_SIZE - 2 - |item.key|; n == if |item.value| < room then |item.value| + 1 else room
    ensures Cut(ItemLine(item)) == item.key + (":" + (" " + item.value)[..n])
  {
    var after := " " + item.value;
    Assoc(item.key, ":", after);
    Assoc(item.key + ":", " ", item.value);
    assert ItemLine(item) == item.key + (":" + after) by { assert item.key + ": " == item.key + ":" + " "; }
    CutBehind(item.key, after, n);
  }

  lemma CutBehind(key: string, after: string, n: nat)
    requires |key| < LINE_SIZE - 1 && n == if |key| + 1 + |after| < LINE_SIZE then |after| else LINE_SIZE - 2 - |key|
    ensures Cut(key + (":" + after)) == key + (":" + after[..n])
  {
    var line := key + (":" + after);
    if |line| < LINE_SIZE {
      assert after[..n] == after;
    } else {
      assert line[..LINE_SIZE - 1] == key + (":" + after)[..n + 1];
      assert (":" + after)[..n + 1] == ":" + after[..n];
    }
  }

  lemma RereadOfKeyless(item: Item)
    requires CleanItem(item) && item.key == []
    ensures Reread(item).Some? && (Reread(item) == Some(item) <==> item.value == [])
  {
    var value, line := item.value, Cut(ItemLine(item));
    var n := if |value| < LINE_SIZE - 2 then |value| + 1 else LINE_SIZE - 2;
    var tail := (" " + value)[..n];
    NoBracket(item);
    assert ItemLine(item) == ":" + (" " + value);
    assert line == ":" + tail;
    assert line[1..] == tail;
    ValueToken(value, n);
    assert NextToken(line, SEPARATORS) == NextToken(tail, SEPARATORS);
  }

  predicate ItemReturns(item: Item) {
    ItemSurvives(item) && ItemFits(item)
  }

  /** A clean item is reread as itself exactly when it survives and fits. */
  lemma {:induction false} RereadIsSame(item: Item)
    requires CleanItem(item)
    ensures Reread(item) == Some(item) <==> ItemReturns(item)
  {
    if item.key == [] {
      RereadOfKeyless(item);
    } else if item.key[0] == '#' {
      assert Cut(ItemLine(item))[0] == '#';
    } else if IsComment(item) || |item.key| >= LINE_SIZE - 1 {
      RereadOfWord(item);
    } else {
      RereadOfPair(item);
    }
  }

  lemma LineOpOfTitle(st: State, name: string)
    requires TitleFits(name)
    ensures LineOp(st, TitlePiece(name).body) == Ok(Some(Op(name, None)))
  {
    var line := TitleLine(name);
    assert line[|line| - 1] == ']' && line[1..|line| - 1] == name;
  }

  /** The last section after one printed item has been read back. */
  function Absorb(last: Section, write: Option<Item>): Section {
    match write
    case None => last
    case Some(w) => Section(last.name, WriteItem(last.items, w.key, w.value))
  }

  lemma ParseItemLine(done: Store, last: Section, item: Item)
    requires FindSection(done + [last], last.name) == |done|
    requires CleanItem(item)
    ensures ParseLine(State(done + [last], Some(last.name)), Cut(ItemLine(item))) ==
      Ok(State(done + [Absorb(last, Reread(item))], Some(last.name)))
  {
    var store := done + [last];
    LineOpOfItem(State(store, Some(last.name)), item);
    if Reread(item).Some? { DoLast(done, last, Reread(item).value); }
  }

  lemma DoLast(done: Store, last: Section, w: Item)
    requires FindSection(done + [last], last.name) == |done|
    ensures Do(done + [last], Op(last.name, Some(w))) ==
      done + [Section(last.name, WriteItem(last.items, w.key, w.value))]
  {
    DoFound(done + [last], last.name, w);
    WriteLast(done, last, w);
  }

  lemma DoFound(store: Store, name: string, w: Item)
    requires FindSection(store, name) < |store|
    ensures Do(store, Op(name, Some(w))) == WriteAt(store, FindSection(store, name), w.key, w.value)
  {}

  lemma WriteLast(done: Store, last: Section, w: Item)
    ensures WriteAt(done + [last], |done|, w.key, w.value) ==
      done + [Section(last.name, WriteItem(last.items, w.key, w.value))]
  {
    assert (done + [last])[|done|] == last;
  }

  lemma RereadsCons(last: Section, items: seq<Item>)
    requires items != []
    ensures WriteAll(last.items, Rereads(items)) == WriteAll(Absorb(last, Reread(items[0])).items, Rereads(items[1..]))
  {
    MappedTail(Reread, items);
    WriteSomes(last, Mapped(Reread, items));
  }

  lemma WriteSomes(last: Section, options: seq<Option<Item>>)
    requires options != []
    ensures WriteAll(last.items, Somes(options)) == WriteAll(Absorb(last, options[0]).items, Somes(options[1..]))
  {
    if options[0].Some? {
      assert Somes(options)[0] == options[0].value && Somes(options)[1..] == Somes(options[1..]);
    } else {
      assert Somes(options) == Somes(options[1..]);
    }
  }

  /** Item lines after a title, up to the next one: the rereads, written in turn to the last section. */
  lemma {:induction false} ParseItemLines(done: Store, last: Section, items: seq<Item>, more: seq<string>)
    requires FindSection(done + [last], last.name) == |done|
    requires CleanItems(items)
    ensures var t := Section(last.name, WriteAll(last.items, Rereads(items)));
      ParseLines(State(done + [last], Some(last.name)), ItemLines(items) + more) ==
      ParseLines(State(done + [t], Some(last.name)), more)
    decreases |items|
  {
    if items == [] {
      assert ItemLines(items) + more == more;
    } else {
      var next := Absorb(last, Reread(items[0]));
      ParseItemLine(done, last, items[0]);
      var line := Cut(ItemLine(items[0]));
      Assoc([line], ItemLines(items[1..]), more);
      assert ([line] + (ItemLines(items[1..]) + more))[1..] == ItemLines(items[1..]) + more;
      SameNameFound(done, last, next);
      ParseItemLines(done, next, items[1..], more);
      RereadsCons(last, items);
    }
  }

  lemma {:induction false} SameNameFound(done: Store, a: Section, b: Section)
    requires a.name == b.name
    ensures FindSection(done + [a], a.name) == FindSection(done + [b], b.name)
  {
    if done != [] {
      assert (done + [a])[1..] == done[1..] + [a] && (done + [b])[1..] == done[1..] + [b];
      SameNameFound(done[1..], a, b);
    }
  }

  function Reparsed(store: Store): (r: Store)
    ensures |r| == |store|
    ensures forall i :: 0 <= i < |r| ==> r[i] == Section(store[i].name, WriteAll([], Rereads(store[i].items)))
  {
    if store == [] then []
    else [Section(store[0].name, WriteAll([], Rereads(store[0].items)))] + Reparsed(store[1..])
  }

  predicate TitlesFit(store: Store) {
    forall i :: 0 <= i < |store| ==> TitleFits(store[i].name)
  }

  lemma {:induction false} ParseSectionLines(done: Store, section: Option<string>, store: Store)
    requires UniqueNames(done + store) && CleanStore(store) && TitlesFit(store)
    ensures ParseLines(State(done, section), SectionLines(store)).Ok?
    ensures ParseLines(State(done, section), SectionLines(store)).value.store == done + Reparsed(store)
    decreases |store|
  {
    if store == [] {
      assert done + Reparsed(store) == done;
    } else {
      ParseFirstSection(done, section, store);
      var t := Section(store[0].name, WriteAll([], Rereads(store[0].items)));
      NamesAfter(done, store, t);
      ParseSectionLines(done + [t], Some(store[0].name), store[1..]);
      Assoc(done, [t], Reparsed(store[1..]));
    }
  }

  lemma ParseFirstSection(done: Store, section: Option<string>, store: Store)
    requires store != [] && UniqueNames(done + store)
    requires CleanItems(store[0].items) && TitleFits(store[0].name)
    ensures var s := store[0];
      ParseLines(State(done, section), SectionLines(store)) ==
      ParseLines(State(done + [Section(s.name, WriteAll([], Rereads(s.items)))], Some(s.name)),
                 SectionLines(store[1..]))
  {
    var s, more := store[0], SectionLines(store[1..]);
    FreshName(done, store);
    ParseTitle(State(done, section), s.name, ItemLines(s.items) + more);
    FindAppended(done, Section(s.name, []));
    ParseItemLines(done, Section(s.name, []), s.items, more);
    assert SectionLines(store) == [TitlePiece(s.name).body] + (ItemLines(s.items) + more);
  }

  lemma FreshName(done: Store, store: Store)
    requires store != [] && UniqueNames(done + store)
    ensures FindSection(done, store[0].name) == |done|
  {
    forall i | 0 <= i < |done| ensures done[i].name != store[0].name {
      assert (done + store)[i] == done[i] && (done + store)[|done|] == store[0];
    }
    FindSectionNone(done, store[0].name);
  }

  lemma ParseTitle(st: State, name: string, more: seq<string>)
    requires TitleFits(name) && FindSection(st.store, name) == |st.store|
    ensures ParseLines(st, [TitlePiece(name).body] + more) ==
      ParseLines(State(st.store + [Section(name, [])], Some(name)), more)
  {
    LineOpOfTitle(st, name);
    assert ([TitlePiece(name).body] + more)[1..] == more;
  }

  lemma NamesAfter(done: Store, store: Store, t: Section)
    requires store != [] && t.name == store[0].name && UniqueNames(done + store)
    ensures UniqueNames((done + [t]) + store[1..])
  {
    var a, b := done + store, (done + [t]) + store[1..];
    assert |a| == |b| && forall i :: 0 <= i < |a| ==> a[i].name == b[i].name;
  }

  // If the loaded store is the saved one, no line can have been lost or cut short.

  function TitleOf(line: string): Option<string> {
    var start := TrimLeft(line);
    if start != [] && start[0] != '#' && ']' in start && |start| >= 2 then Some(start[1..|start| - 1]) else None
  }

  function Titles(lines: seq<string>): seq<string> {
    if lines == [] then []
    else (match TitleOf(lines[0]) case None => [] case Some(t) => [t]) + Titles(lines[1..])
  }

  function Names(store: Store): (names: seq<string>)
    ensures |names| == |store| && forall i :: 0 <= i < |store| ==> names[i] == store[i].name
  {
    if store == [] then [] else [store[0].name] + Names(store[1..])
  }

  /** Sections and items. */
  function Size(store: Store): nat {
    if store == [] then 0 else 1 + |store[0].items| + Size(store[1..])
  }

  lemma {:induction false} SizeUpdate(store: Store, i: nat, s: Section)
    requires i < |store|
    ensures Size(store[i := s]) + |store[i].items| == Size(store) + |s.items|
  {
    if i == 0 {
      assert store[0 := s][1..] == store[1..];
    } else {
      assert store[i := s][1..] == store[1..][i - 1 := s];
      SizeUpdate(store[1..], i - 1, s);
    }
  }

  lemma {:induction false} SizeSnoc(store: Store, s: Section)
    ensures Size(store + [s]) == Size(store) + 1 + |s.items|
  {
    if store == [] {
      assert [] + [s] == [s] && [s][1..] == [];
    } else {
      assert (store + [s])[1..] == store[1..] + [s];
      SizeSnoc(store[1..], s);
    }
  }

  lemma LoadGrows(store: Store, name: string)
    ensures var r := LoadSection(store, name);
      && Size(r) <= Size(store) + 1
      && (Names(r) == Names(store) || Names(r) == Names(store) + [name])
  {
    SizeSnoc(store, Section(name, []));
    assert Names(store + [Section(name, [])]) == Names(store) + [name];
  }

  lemma WriteGrows(store: Store, i: nat, w: Item)
    requires i < |store|
    ensures var r := WriteAt(store, i, w.key, w.value);
      Size(r) <= Size(store) + 1 && Names(r) == Names(store)
  {
    SizeUpdate(store, i, Section(store[i].name, WriteItem(store[i].items, w.key, w.value)));
  }

  /** The current section exists. */
  predicate Settled(st: State) {
    st.section.Some? && FindSection(st.store, st.section.value) < |st.store|
  }

  predicate Grew(before: Store, after: Store, lines: seq<string>) {
    && Size(after) <= Size(before) + |lines|
    && |after| <= |before| + |Titles(lines)|
    && (|after| == |before| + |Titles(lines)| ==> Names(after) == Names(before) + Titles(lines))
    && Names(before) <= Names(after)
  }

  lemma LineGrows(st: State, line: string)
    requires Settled(st) && ParseLine(st, line).Ok?
    ensures Settled(ParseLine(st, line).value) && Grew(st.store, ParseLine(st, line).value.store, [line])
  {
    assert [line][1..] == [];
    var op := LineOp(st, line).value;
    if op.Some? {
      var name := op.value.name;
      LoadGrows(st.store, name);
      if op.value.write.Some? {
        var i, w := FindSection(st.store, name), op.value.write.value;
        WriteGrows(st.store, i, w);
        FoundByName(st.store, WriteAt(st.store, i, w.key, w.value), name);
        assert TitleOf(line).None?;
      } else {
        assert TitleOf(line) == Some(name);
      }
    } else {
      assert TitleOf(line).None?;
    }
  }

  lemma FoundByName(a: Store, b: Store, name: string)
    requires Names(a) == Names(b)
    ensures FindSection(a, name) == FindSection(b, name)
  {
    var i, j := FindSection(a, name), FindSection(b, name);
    assert |a| == |b| && forall k :: 0 <= k < |a| ==> Names(a)[k] == a[k].name && Names(b)[k] == b[k].name;
  }

  lemma GrewOn(a: Store, b: Store, c: Store, line: string, lines: seq<string>)
    requires Grew(a, b, [line]) && Grew(b, c, lines)
    ensures Grew(a, c, [line] + lines)
  {
    TitlesConcat([line], lines);
    Assoc(Names(a), Titles([line]), Titles(lines));
  }

  /** A line adds at most one section or item, and only a title adds a section. */
  lemma {:induction false} LinesGrow(st: State, lines: seq<string>)
    requires Settled(st) && ParseLines(st, lines).Ok?
    ensures Grew(st.store, ParseLines(st, lines).value.store, lines)
    decreases |lines|
  {
    if lines != [] {
      var next := ParseLine(st, lines[0]).value;
      LineGrows(st, lines[0]);
      LinesGrow(next, lines[1..]);
      GrewOn(st.store, next.store, ParseLines(st, lines).value.store, lines[0], lines[1..]);
      assert [lines[0]] + lines[1..] == lines;
    }
  }

  /** From nothing, the same if the first line is a title; otherwise the first section is "Global". */
  lemma StartGrows(lines: seq<string>)
    requires lines != [] && lines[0] != [] && lines[0][0] == '[' && ParseLines(State([], None), lines).Ok?
    ensures var r := ParseLines(State([], None), lines).value.store;
      if TitleOf(lines[0]).Some? then Grew([], r, lines) else r != [] && r[0].name == GLOBAL
  {
    var next := ParseLine(State([], None), lines[0]).value;
    var r := ParseLines(State([], None), lines).value.store;
    FirstLine(lines[0]);
    LinesGrow(next, lines[1..]);
    if TitleOf(lines[0]).Some? {
      GrewOn([], next.store, r, lines[0], lines[1..]);
      assert [lines[0]] + lines[1..] == lines;
    } else {
      assert Names(r)[0] == Names(next.store)[0];
    }
  }

  lemma FirstLine(line: string)
    requires line != [] && line[0] == '[' && ParseLine(State([], None), line).Ok?
    ensures var next := ParseLine(State([], None), line).value;
      && Settled(next)
      && if TitleOf(line).Some? then Grew([], next.store, [line]) else Names(next.store) == [GLOBAL]
  {
    var op := LineOp(State([], None), line).value.value;
    assert TrimLeft(line) == line;
    assert [line][1..] == [];
    if TitleOf(line).Some? {
      var s := Section(op.name, []);
      assert Do([], op) == [s] && [s][1..] == [];
    } else {
      var w := op.write.value;
      assert Do([], op) == WriteAt([Section(GLOBAL, [])], 0, w.key, w.value);
      WriteGrows([Section(GLOBAL, [])], 0, w);
    }
  }

  lemma {:induction false} MergeHead(pre: string, pieces: seq<Piece>)
    requires pieces != [] && pre + pieces[0].body != []
    ensures Merge(pre, pieces) != [] && pre + pieces[0].body <= Merge(pre, pieces)[0]
    decreases |pieces|
  {
    var p := pieces[0];
    if !p.ended && |pieces| > 1 {
      MergeHead(pre + p.body, pieces[1..]);
    }
  }

  lemma {:induction false} TitlesConcat(a: seq<string>, b: seq<string>)
    ensures Titles(a + b) == Titles(a) + Titles(b)
  {
    if a == [] {
      assert a + b == b;
    } else {
      assert (a + b)[1..] == a[1..] + b;
      TitlesConcat(a[1..], b);
    }
  }

  lemma {:induction false} NoTitlesInItems(items: seq<Item>)
    requires CleanItems(items)
    ensures Titles(ItemLines(items)) == []
  {
    if items != [] {
      assert CleanItem(items[0]);
      NoBracket(items[0]);
      NoTitlesInItems(items[1..]);
    }
  }

  lemma TitleOfBody(name: string)
    ensures var t := TitleOf(TitlePiece(name).body); t.Some? ==> TitleFits(t.value)
  {
    assert |TitlePiece(name).body| <= LINE_SIZE - 2;
  }

  lemma TitlesCons(line: string, lines: seq<string>)
    ensures Titles([line] + lines) == (match TitleOf(line) case None => [] case Some(t) => [t]) + Titles(lines)
  {
    assert ([line] + lines)[1..] == lines;
  }

  /** The lines hold at most one title a section, none longer than the line buffer allows. */
  lemma {:induction false} TitlesOfSections(store: Store)
    requires CleanStore(store)
    ensures |Titles(SectionLines(store))| <= |store|
    ensures forall t :: t in Titles(SectionLines(store)) ==> TitleFits(t)
  {
    if store != [] {
      var s, rest := store[0], SectionLines(store[1..]);
      TitlesOfSections(store[1..]);
      NoTitlesInItems(s.items);
      TitlesConcat(ItemLines(s.items), rest);
      TitleOfBody(s.name);
      TitlesCons(TitlePiece(s.name).body, ItemLines(s.items) + rest);
    }
  }

  lemma {:induction false} LinesCount(store: Store)
    ensures |SectionLines(store)| == Size(store)
  {
    if store != [] {
      LinesCount(store[1..]);
      BodiesOfItems(store[0].items);
    }
  }

  /** The first line begins with what was printed of the first title. */
  lemma FirstTitle(store: Store)
    requires store != []
    ensures var lines := Merge([], Pieces(store));
      lines != [] && TitlePiece(store[0].name).body <= lines[0]
  {
    var all, title := Pieces(store), TitlePiece(store[0].name);
    assert all[0] == BLANK && all[1] == title && all[1..] != [];
    assert [] + title.body == title.body;
    assert [] + BLANK.body == [];
    MergeHead([], all[1..]);
  }

  lemma TitleSeen(name: string, line: string)
    requires TitlePiece(name).body <= line
    ensures TitleFits(name) ==> TitleOf(line).Some?
  {
    var body := TitlePiece(name).body;
    assert line[0] == body[0] && TrimLeft(line) == line;
    assert TitleFits(name) ==> body[|body| - 1] == ']' && line[|body| - 1] == ']';
  }

  lemma MustFit(store: Store)
    requires store != [] && CleanStore(store)
    requires ParseLines(State([], None), Merge([], Pieces(store))).Ok?
    requires ParseLines(State([], None), Merge([], Pieces(store))).value.store == store
    ensures EndsFit(store) && TitlesFit(store)
  {
    var lines, title := Merge([], Pieces(store)), TitlePiece(store[0].name).body;
    FirstTitle(store);
    assert title[0] == '[' && lines[0][0] == title[0];
    StartGrows(lines);
    TitleSeen(store[0].name, lines[0]);
    assert TitleFits(GLOBAL);
    assert TitleOf(lines[0]).Some?;
    PiecesOneLine(store);
    MergeCount([], Pieces(store));
    if Separate(Pieces(store)) { MergeSeparate([], Pieces(store)); }
    BodiesAreLines(store);
    LinesCount(store);
    SeparateIff(store);
    TitlesOfSections(store);
    assert [] + Titles(lines) == Titles(lines) && [] + Bodies(Pieces(store)) == Bodies(Pieces(store));
    forall i | 0 <= i < |store| ensures TitleFits(store[i].name) {
      assert Names(store)[i] in Titles(lines);
    }
  }

  // The header.

  lemma HeaderIgnored(store: Store, lines: seq<string>)
    ensures ParseLines(State(store, None), HEADER + lines) == ParseLines(State(store, None), lines)
  {
    HeaderLines();
    SkipRemarks(State(store, None), HEADER, lines);
  }

  lemma {:induction false} SkipRemarks(st: State, remarks: seq<string>, lines: seq<string>)
    requires forall i :: 0 <= i < |remarks| ==> remarks[i] != [] && remarks[i][0] == '#'
    ensures ParseLines(st, remarks + lines) == ParseLines(st, lines)
  {
    if remarks == [] {
      assert remarks + lines == lines;
    } else {
      assert (remarks + lines)[1..] == remarks[1..] + lines;
      assert ParseLine(st, remarks[0]) == Ok(st);
      SkipRemarks(st, remarks[1..], lines);
    }
  }

  lemma HeaderLines()
    ensures forall i :: 0 <= i < |HEADER| ==> OneLine(HEADER[i]) && HEADER[i] != [] && HEADER[i][0] == '#'
  {
    HeaderTitle();
    HeaderItems();
    HeaderGlobal();
    HeaderComments();
  }

  lemma HeaderTitle()
    ensures OneLine(HEADER_TITLE) && HEADER_TITLE[0] == '#'
  {}

  lemma HeaderItems()
    ensures OneLine(HEADER_ITEMS) && HEADER_ITEMS[0] == '#'
  {
    assert OneLine("# any items entered ") && OneLine("before a [section] header");
  }

  lemma HeaderGlobal()
    ensures OneLine(HEADER_GLOBAL) && HEADER_GLOBAL[0] == '#'
  {
    assert OneLine("# will be in the ") && OneLine("Global config space");
  }

  lemma HeaderComments()
    ensures OneLine(HEADER_COMMENTS) && HEADER_COMMENTS[0] == '#'
  {
    assert OneLine("# comments you wish ") && OneLine("to keep should start ") && OneLine("with a semicolon';'");
  }

  lemma {:induction false} TokensOfLines(lines: seq<string>, rest: string)
    requires forall i :: 0 <= i < |lines| ==> OneLine(lines[i]) && lines[i] != []
    ensures Tokens(PrintLines(lines) + rest, NEWLINE) == lines + Tokens(rest, NEWLINE)
  {
    if lines == [] {
      assert PrintLines(lines) + rest == rest;
    } else {
      Assoc(lines[0] + "\n", PrintLines(lines[1..]), rest);
      TokensOfLine(lines[0], PrintLines(lines[1..]) + rest);
      TokensOfLines(lines[1..], rest);
      Assoc([lines[0]], lines[1..], Tokens(rest, NEWLINE));
      assert [lines[0]] + lines[1..] == lines;
    }
  }

  /** What the parser sees of any clean store: the pieces, run into each other where their ends were cut. */
  lemma ParseIsMerge(store: Store)
    requires CleanStore(store)
    ensures Parse(Print(store)) ==
      match ParseLines(State([], None), Merge([], Pieces(store)))
      case Fault => Fault
      case Ok(st) => Ok(st.store)
  {
    HeaderLines();
    TokensOfLines(HEADER, PrintSections(store));
    PiecesText(store);
    PiecesOneLine(store);
    TokensOfPieces([], Pieces(store));
    assert [] + TextOf(Pieces(store)) == TextOf(Pieces(store));
    HeaderIgnored([], Merge([], Pieces(store)));
  }

  /** Saving `store` and loading what was saved gives `r`. */
  predicate ComesBackAs(store: Store, r: Store) {
    Parse(Print(store)) == Ok(r)
  }

  /** For every clean store whose titles and line ends fit the line buffer: parsing the printed text gives
      each section under its own name, with the rereads of its items written to it in turn. */
  lemma {:induction false} ParsePrint(store: Store)
    requires WellKept(store) && CleanStore(store) && EndsFit(store) && TitlesFit(store)
    ensures ComesBackAs(store, Reparsed(store))
  {
    ParseIsMerge(store);
    PiecesOneLine(store);
    SeparateIff(store);
    MergeSeparate([], Pieces(store));
    BodiesAreLines(store);
    assert [] + SectionLines(store) == SectionLines(store);
    assert [] + store == store;
    ParseSectionLines([], None, store);
    assert [] + Reparsed(store) == Reparsed(store);
  }

  // The round trip.

  lemma {:induction false} RereadsSame(items: seq<Item>)
    requires CleanItems(items)
    ensures Rereads(items) == items <==> forall j :: 0 <= j < |items| ==> ItemReturns(items[j])
  {
    SomesSame(Mapped(Reread, items), items);
    forall j | 0 <= j < |items| ensures Mapped(Reread, items)[j] == Some(items[j]) <==> ItemReturns(items[j]) {
      assert CleanItem(items[j]);
      RereadIsSame(items[j]);
    }
  }

  /** Rereading gives back a section's items, in order, if and only if each item returns. */
  lemma {:induction false} SectionRoundTrip(items: seq<Item>)
    requires UniqueKeys(items) && CleanItems(items)
    ensures WriteAll([], Rereads(items)) == items <==> forall j :: 0 <= j < |items| ==> ItemReturns(items[j])
  {
    WrittenBack(items, Rereads(items));
    RereadsSame(items);
  }

  lemma SurvivorsAreClean(store: Store)
    requires Survives(store)
    ensures CleanStore(store)
  {}

  lemma {:induction false} ReparsedIsSame(store: Store)
    requires WellKept(store) && CleanStore(store)
    ensures Reparsed(store) == store <==>
      forall i, j :: 0 <= i < |store| && 0 <= j < |store[i].items| ==> ItemReturns(store[i].items[j])
  {
    var r := Reparsed(store);
    forall i | 0 <= i < |store|
      ensures r[i] == store[i] <==> forall j :: 0 <= j < |store[i].items| ==> ItemReturns(store[i].items[j])
    {
      SectionRoundTrip(store[i].items);
    }
    if r == store {
      assert forall i :: 0 <= i < |store| ==> r[i] == store[i];
    }
  }

  lemma SurvivesAndFits(store: Store)
    ensures Survives(store) && Fits(store) <==>
      && (forall i :: 0 <= i < |store| ==> OneLine(store[i].name))
      && EndsFit(store) && TitlesFit(store)
      && (forall i, j :: 0 <= i < |store| && 0 <= j < |store[i].items| ==> ItemReturns(store[i].items[j]))
  {}

  /** What was saved is what is loaded. */
  predicate RoundTrips(store: Store) {
    ComesBackAs(store, store)
  }

  /** For every store whatever: what was saved is what is loaded, same sections and same items in the same
      order, if and only if no name and no key stands twice, every name and item survives, and what
      matters of every line fits the line buffer. */
  lemma {:induction false} RoundTrip(store: Store)
    ensures RoundTrips(store) <==> WellKept(store) && Survives(store) && Fits(store)
  {
    SurvivesAndFits(store);
    if RoundTrips(store) {
      ParsedIsClean(Print(store));
      ParseIsMerge(store);
      if store != [] { MustFit(store); }
      ParsePrint(store);
      ReparsedIsSame(store);
    }
    if WellKept(store) && Survives(store) && Fits(store) {
      SurvivorsAreClean(store);
      ParsePrint(store);
      ReparsedIsSame(store);
    }
  }

  /** A lone item in a section of ordinary name comes back if and only if it survives and fits. */
  lemma LoneItem(item: Item)
    ensures RoundTrips([Section("s", [item])]) <==> ItemReturns(item)
  {
    var s := Section("s", [item]);
    RoundTrip([s]);
    assert OneLine("s");
    assert s.items[0] == item;
    assert [s][0] == s;
  }

  /** A key that begins with '#' is saved and then taken for a remark. */
  lemma RemarksAreLost()
    ensures !RoundTrips([Section("s", [Item("#k", "v")])])
  {
    LoneItem(Item("#k", "v"));
  }

  /** A lone key comes back if and only if it is shorter than the line buffer. */
  lemma LongKeysAreCut(n: nat)
    ensures RoundTrips([Section("s", [Item(seq(n, _ => 'k'), "")])]) <==> n < LINE_SIZE
  {
    var item := Item(seq(n, _ => 'k'), "");
    PlainKeyReturns(item);
    LoneItem(item);
  }

  lemma PlainKeyReturns(item: Item)
    requires (forall i :: 0 <= i < |item.key| ==> item.key[i] == 'k') && item.value == ""
    ensures ItemReturns(item) <==> |item.key| < LINE_SIZE
  {}
}
