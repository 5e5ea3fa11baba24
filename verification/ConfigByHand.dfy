/**
Configuration files as people write them: blanks anywhere, either separator, remarks, and text behind a value.
Whatever its form, a file is read as the run of writes that its lines ask for.
*/
module ConfigByHand {
  import opened Text
  import opened ConfigModel
  import opened ConfigText
  import ConfigRoundTrip

  /** A line, and the blanks before it. Behind a second separator an entry may hold anything. */
  datatype Line =
    | Remark(blanks: string, text: string)
    | Title(blanks: string, name: string)
    | Entry(blanks: string, key: string, separators: string, gap: string, value: string, behind: string)

  predicate NoBreak(s: string) {
    '\n' !in s
  }

  predicate Proper(line: Line) {
    NoBreak(line.blanks) && AllBlank(line.blanks) &&
    match line
    case Remark(_, text) => NoBreak(text)
    case Title(_, name) => NoBreak(name) && |name| < 1024
    case Entry(_, key, separators, gap, value, behind) =>
      && key != [] && !IsSpace(key[0]) && key[0] != '#' && Part(key)
      && separators != [] && (forall c :: c in separators ==> c == ':' || c == '=')
      && NoBreak(gap) && AllBlank(gap) && Part(value) && (value != [] ==> !IsSpace(value[0]))
      && NoBreak(behind) && ']' !in behind
      && (behind != [] ==> gap + value != [] && (behind[0] == ':' || behind[0] == '='))
  }

  /** Neither a separator nor a closing bracket. */
  predicate Part(s: string) {
    NoBreak(s) && ':' !in s && '=' !in s && ']' !in s
  }

  function Wording(line: Line): string {
    match line
    case Remark(blanks, text) => blanks + ("#" + text)
    case Title(blanks, name) => blanks + ("[" + (name + "]"))
    case Entry(blanks, key, separators, gap, value, behind) =>
      blanks + (key + (separators + ((gap + value) + behind)))
  }

  /** What a line asks for below the title of a section. */
  function Asks(line: Line, section: string): seq<Op> {
    match line
    case Remark(_, _) => []
    case Title(_, name) => [Op(name, None)]
    case Entry(_, key, _, _, value, _) => [Op(section, Some(Item(key, value)))]
  }

  /** The operations that a file asks for; entries before the first title go to "Global". */
  function OpsOf(lines: seq<Line>, section: string): seq<Op> {
    if lines == [] then []
    else Asks(lines[0], section) + OpsOf(lines[1..], if lines[0].Title? then lines[0].name else section)
  }

  function Wordings(lines: seq<Line>): seq<string> {
    if lines == [] then [] else [Wording(lines[0])] + Wordings(lines[1..])
  }

  // ---------- one line ----------

  lemma RemarkIsRead(line: Line, st: State)
    requires Proper(line) && line.Remark?
    ensures LineOp(st, Wording(line)) == Ok(None)
  {
    TrimBlanks(line.blanks, "#" + line.text);
  }

  lemma TitleIsRead(line: Line, st: State)
    requires Proper(line) && line.Title?
    ensures LineOp(st, Wording(line)) == Ok(Some(Op(line.name, None)))
  {
    var start := "[" + (line.name + "]");
    TrimBlanks(line.blanks, start);
    assert start[|start| - 1] == ']';
    assert start[1..|start| - 1] == line.name;
  }

  /** A title overruns its buffer from 1024 characters on, and so does one that is only a bracket. */
  lemma TitleFaultsIff(blanks: string, name: string, st: State)
    requires AllBlank(blanks)
    ensures LineOp(st, blanks + ("[" + (name + "]"))).Fault? <==> |name| >= 1024
    ensures LineOp(st, blanks + "]").Fault?
  {
    var start := "[" + (name + "]");
    TrimBlanks(blanks, start);
    TrimBlanks(blanks, "]");
    assert start[|start| - 1] == ']';
  }

  lemma EntryIsRead(line: Line, st: State)
    requires Proper(line) && line.Entry?
    ensures LineOp(st, Wording(line)) == Ok(Some(Op(Target(st), Some(Item(line.key, line.value)))))
  {
    var given := line.gap + line.value;
    var start := line.key + (line.separators + (given + line.behind));
    assert start[0] == line.key[0];
    TrimBlanks(line.blanks, start);
    NoBracket(line.key, line.separators, line.gap, line.value, line.behind);
    EntryTokens(line.key, line.separators, given, line.behind);
    TrimBlanks(line.gap, line.value);
    assert TrimLeft(line.key) == line.key;
    assert given == [] ==> line.value == [];
  }

  lemma NoBracket(key: string, separators: string, gap: string, value: string, behind: string)
    requires Part(key) && Part(value) && ']' !in behind && AllBlank(gap)
    requires forall c :: c in separators ==> c == ':' || c == '='
    ensures ']' !in key + (separators + ((gap + value) + behind))
    ensures ':' !in gap + value && '=' !in gap + value
  {
    assert forall c :: c in gap ==> IsSpace(c);
  }

  /** The two tokens of an entry. */
  lemma EntryTokens(key: string, separators: string, given: string, behind: string)
    requires key != [] && Part(key) && ':' !in given && '=' !in given
    requires separators != [] && forall c :: c in separators ==> c == ':' || c == '='
    requires behind != [] ==> given != [] && (behind[0] == ':' || behind[0] == '=')
    ensures var (first, rest) := NextToken(key + (separators + (given + behind)), SEPARATORS);
      first == Some(key) && NextToken(rest, SEPARATORS).0 == if given == [] then None else Some(given)
  {
    var tail := separators + (given + behind);
    assert separators[0] in separators && tail[0] == separators[0];
    assert tail[1..] == separators[1..] + (given + behind);
    FirstToken(key, tail);
    assert forall c :: c in separators[1..] ==> c in separators;
    SecondToken(separators[1..], given, behind);
  }

  lemma FirstToken(key: string, rest: string)
    requires key != [] && Free(key, SEPARATORS) && rest != [] && rest[0] in SEPARATORS
    ensures NextToken(key + rest, SEPARATORS) == (Some(key), rest[1..])
  {
    var s := key + rest;
    ConfigRoundTrip.SpanOutAt(key, rest, SEPARATORS);
    assert s[0] == key[0] && s[..|key|] == key && s[|key| + 1..] == rest[1..];
  }

  /** Further separators are skipped, and a missing value counts as empty. */
  lemma SecondToken(more: string, value: string, behind: string)
    requires (forall c :: c in more ==> c in SEPARATORS) && Free(value, SEPARATORS)
    requires behind != [] ==> value != [] && behind[0] in SEPARATORS
    ensures NextToken(more + (value + behind), SEPARATORS).0 == if value == [] then None else Some(value)
  {
    SkipsSeparators(more, value + behind);
    if value != [] {
      var t := value + behind;
      assert t[0] == value[0];
      ConfigRoundTrip.SpanOutAt(value, behind, SEPARATORS);
      assert t[..|value|] == value;
    }
  }

  lemma {:induction false} SkipsSeparators(more: string, s: string)
    requires (forall c :: c in more ==> c in SEPARATORS) && (s != [] ==> s[0] !in SEPARATORS)
    ensures SkipIn(more + s, SEPARATORS) == s
  {
    if more == [] {
      assert more + s == s;
    } else {
      assert (more + s)[1..] == more[1..] + s;
      SkipsSeparators(more[1..], s);
    }
  }

  // ---------- whole files ----------

  /** A file of such lines is read as the run of what they ask for, in order. */
  lemma {:induction false} LinesAreRead(st: State, lines: seq<Line>)
    requires forall i :: 0 <= i < |lines| ==> Proper(lines[i])
    ensures var r := ParseLines(st, Wordings(lines));
      r.Ok? && r.value.store == RunOps(st.store, OpsOf(lines, Target(st)))
    decreases |lines|
  {
    if lines != [] {
      var line := lines[0];
      LineIsRead(line, st);
      var next := ParseLine(st, Wording(line)).value;
      LinesAreRead(next, lines[1..]);
      AsksFirst(st.store, Asks(line, Target(st)), OpsOf(lines[1..], Target(next)));
    }
  }

  lemma LineIsRead(line: Line, st: State)
    requires Proper(line)
    ensures var r := ParseLine(st, Wording(line));
      && r.Ok? && r.value.store == RunOps(st.store, Asks(line, Target(st)))
      && Target(r.value) == if line.Title? then line.name else Target(st)
  {
    match line
    case Remark(_, _) => RemarkIsRead(line, st);
    case Title(_, name) =>
      TitleIsRead(line, st);
      RunOne(st.store, Op(name, None));
    case Entry(_, key, _, _, value, _) =>
      EntryIsRead(line, st);
      RunOne(st.store, Op(Target(st), Some(Item(key, value))));
  }

  lemma RunOne(store: Store, op: Op)
    ensures RunOps(store, [op]) == Do(store, op)
  {
    assert [op][1..] == [];
  }

  lemma AsksFirst(store: Store, asks: seq<Op>, rest: seq<Op>)
    requires |asks| <= 1
    ensures RunOps(store, asks + rest) == RunOps(RunOps(store, asks), rest)
  {
    if asks == [] {
      assert asks + rest == rest;
    } else {
      assert asks == [asks[0]] && (asks + rest)[1..] == rest;
      RunOne(store, asks[0]);
    }
  }

  lemma NoBreakInWording(line: Line)
    requires Proper(line)
    ensures Wording(line) != [] && OneLine(Wording(line))
  {}

  lemma {:induction false} TokensAreLines(lines: seq<Line>)
    requires forall i :: 0 <= i < |lines| ==> Proper(lines[i])
    ensures Tokens(PrintLines(Wordings(lines)), NEWLINE) == Wordings(lines)
  {
    if lines != [] {
      NoBreakInWording(lines[0]);
      ConfigRoundTrip.TokensOfLine(Wording(lines[0]), PrintLines(Wordings(lines[1..])));
      TokensAreLines(lines[1..]);
    }
  }

  /** Every key of every section has the last value that the file gives it. */
  lemma FileIsRead(lines: seq<Line>)
    requires forall i :: 0 <= i < |lines| ==> Proper(lines[i])
    ensures Parse(PrintLines(Wordings(lines))) == Ok(RunOps([], OpsOf(lines, "Global")))
  {
    TokensAreLines(lines);
    LinesAreRead(State([], None), lines);
  }
}
