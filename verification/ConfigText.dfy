/**
The configuration file format: the printer, the tokenising parser, and which stores can come back.
*/
module ConfigText {
  import opened Text
  import opened ConfigModel

  const NEWLINE: set<char> := {'\n'}
  const SEPARATORS: set<char> := {':', '='}

  // ---------- tokens ----------

  predicate Free(s: string, d: set<char>) {
    forall c :: c in s ==> c !in d
  }

  function SkipIn(s: string, d: set<char>): (r: string)
    ensures |r| <= |s| && (r != [] ==> r[0] !in d)
    ensures forall c :: c in r ==> c in s
  {
    if s != [] && s[0] in d then SkipIn(s[1..], d) else s
  }

  /** Length of the longest prefix without a delimiter. */
  function SpanOut(s: string, d: set<char>): (n: nat)
    ensures n <= |s| && Free(s[..n], d)
    ensures n < |s| ==> s[n] in d
  {
    if s == [] || s[0] in d then 0 else 1 + SpanOut(s[1..], d)
  }

  /** One call of the tokeniser: the next token, if there is one, and what is left to scan. */
  function NextToken(s: string, d: set<char>): (r: (Option<string>, string))
    ensures r.0.Some? ==> r.0.value != [] && Free(r.0.value, d) && |r.1| < |s|
    ensures r.0.Some? ==> forall c :: c in r.0.value ==> c in s
    ensures forall c :: c in r.1 ==> c in s
  {
    var t := SkipIn(s, d);
    if t == [] then (None, [])
    else
      var n := SpanOut(t, d);
      (Some(t[..n]), if n < |t| then t[n + 1..] else [])
  }

  function Tokens(s: string, d: set<char>): (r: seq<string>)
    ensures forall i :: 0 <= i < |r| ==> Free(r[i], d)
    decreases |s|
  {
    var (token, rest) := NextToken(s, d);
    if token.None? then [] else [token.value] + Tokens(rest, d)
  }

  /** The whitespace cleaner; a missing token counts as blank. */
  function Cleaned(token: Option<string>): (r: string)
    ensures r != [] ==> !IsSpace(r[0])
    ensures token.Some? ==> forall c :: c in r ==> c in token.value
    ensures token.None? ==> r == []
  {
    match token
    case None => TrimLeft(" ")
    case Some(s) => TrimLeft(s)
  }

  // ---------- printing ----------

  const HEADER_TITLE := "# G15Daemon Configuration File"
  const HEADER_ITEMS := "# any items entered " + "before a [section] header"
  const HEADER_GLOBAL := "# will be in the " + "Global config space"
  const HEADER_COMMENTS := "# comments you wish " + "to keep should start " + "with a semicolon';'"
  const HEADER: seq<string> := [HEADER_TITLE, HEADER_ITEMS, HEADER_GLOBAL, HEADER_COMMENTS]

  /** Text that goes through the line buffer loses what does not fit. */
  function Cut(s: string): string {
    if |s| < LINE_SIZE then s else s[..LINE_SIZE - 1]
  }

  predicate IsComment(item: Item) {
    item.key != [] && item.key[0] == ';'
  }

  function ItemLine(item: Item): (line: string)
    ensures line != []
  {
    if IsComment(item) then item.key else item.key + ": " + item.value
  }

  function TitleLine(name: string): string {
    "[" + name + "]"
  }

  function PrintItems(items: seq<Item>): string {
    if items == [] then [] else Cut(ItemLine(items[0]) + "\n") + PrintItems(items[1..])
  }

  function PrintSections(store: Store): string {
    if store == [] then []
    else Cut("\n" + TitleLine(store[0].name) + "\n") + PrintItems(store[0].items) + PrintSections(store[1..])
  }

  function PrintLines(lines: seq<string>): string {
    if lines == [] then [] else lines[0] + "\n" + PrintLines(lines[1..])
  }

  function Print(store: Store): string {
    PrintLines(HEADER) + PrintSections(store)
  }

  // ---------- parsing ----------

  /** The store read so far and the section new items go to. */
  datatype State = State(store: Store, section: Option<string>)

  const GLOBAL := "Global"

  /** The name of the section current after an item line: "Global" until a title has been seen. */
  function Target(st: State): string {
    if st.section.Some? then st.section.value else GLOBAL
  }

  /** What one line asks of the store, and whether it makes a section current. A line that is only
      a closing bracket, or a title too long for its buffer, is a memory fault. */
  function LineOp(st: State, line: string): Result<Option<Op>> {
    var start := TrimLeft(line);
    if start != [] && start[0] == '#' then Ok(None)
    else if ']' in start then
      if |start| < 2 || |start| - 2 >= LINE_SIZE then Fault
      else Ok(Some(Op(start[1..|start| - 1], None)))
    else
      var (key, rest) := NextToken(start, SEPARATORS);
      var (val, _) := NextToken(rest, SEPARATORS);
      Ok(Some(Op(Target(st), Some(Item(Cleaned(key), Cleaned(val))))))
  }

  function ParseLine(st: State, line: string): Result<State> {
    match LineOp(st, line)
    case Fault => Fault
    case Ok(None) => Ok(st)
    case Ok(Some(op)) => Ok(State(Do(st.store, op), Some(op.name)))
  }

  function ParseLines(st: State, lines: seq<string>): Result<State>
    decreases |lines|
  {
    if lines == [] then Ok(st)
    else
      match ParseLine(st, lines[0])
      case Fault => Fault
      case Ok(st') => ParseLines(st', lines[1..])
  }

  function Parse(text: string): Result<Store> {
    match ParseLines(State([], None), Tokens(text, NEWLINE))
    case Fault => Fault
    case Ok(st) => Ok(st.store)
  }

  // ---------- what comes back ----------

  predicate OneLine(s: string) {
    Free(s, NEWLINE)
  }

  /** An item that survives: a comment is free of separators and brackets and carries no value; any
      other key and its value are free of separators, brackets and leading blanks, and the key is
      neither a '#' remark nor (unless the value is empty too) empty. */
  predicate ItemSurvives(item: Item) {
    && OneLine(item.key) && OneLine(item.value)
    && Free(item.key, SEPARATORS + {']'}) && Free(item.value, SEPARATORS + {']'})
    && (item.key != [] ==> !IsSpace(item.key[0]) && item.key[0] != '#')
    && (item.value != [] ==> !IsSpace(item.value[0]))
    && (item.key == [] || IsComment(item) ==> item.value == [])
  }

  predicate Survives(store: Store) {
    forall i :: 0 <= i < |store| ==>
      OneLine(store[i].name) && forall j :: 0 <= j < |store[i].items| ==> ItemSurvives(store[i].items[j])
  }

  /** The line buffer holds what matters of an item. */
  predicate ItemFits(item: Item) {
    (if item.value == [] then |item.key| else |ItemLine(item)|) < LINE_SIZE
  }

  /** The line buffer holds the line and its end. */
  predicate EndFits(item: Item) {
    |ItemLine(item)| + 1 < LINE_SIZE
  }

  predicate TitleFits(name: string) {
    |name| + 3 < LINE_SIZE
  }

  predicate ItemEndsFit(items: seq<Item>) {
    forall j :: 0 <= j < |items| - 1 ==> EndFits(items[j])
  }

  /** Every line end of a section is held but the last, which the blank line before the next title can
      stand in for. */
  predicate SectionEndsFit(s: Section) {
    (s.items != [] ==> |s.name| + 4 < LINE_SIZE) && ItemEndsFit(s.items)
  }

  predicate SectionFits(s: Section) {
    TitleFits(s.name) && SectionEndsFit(s) && forall j :: 0 <= j < |s.items| ==> ItemFits(s.items[j])
  }

  predicate Fits(store: Store) {
    forall i :: 0 <= i < |store| ==> SectionFits(store[i])
  }

  /** A key or value as the parser can produce it. */
  predicate Clean(s: string) {
    OneLine(s) && Free(s, SEPARATORS + {']'}) && (s != [] ==> !IsSpace(s[0]))
  }

  predicate CleanItem(item: Item) {
    Clean(item.key) && Clean(item.value)
  }

  predicate CleanItems(items: seq<Item>) {
    forall j :: 0 <= j < |items| ==> CleanItem(items[j])
  }

  predicate CleanStore(store: Store) {
    forall i :: 0 <= i < |store| ==> OneLine(store[i].name) && CleanItems(store[i].items)
  }

  // Whatever the text, what the parser builds is clean and well kept.

  lemma LineOpClean(st: State, line: string)
    requires OneLine(line) && (st.section.Some? ==> OneLine(st.section.value))
    ensures var r := LineOp(st, line);
      r.Ok? && r.value.Some? ==>
        && OneLine(r.value.value.name)
        && (r.value.value.write.Some? ==>
            Clean(r.value.value.write.value.key) && Clean(r.value.value.write.value.value))
  {
    var start := TrimLeft(line);
    if !(start != [] && start[0] == '#') {
      if ']' in start {
        assert forall c :: c in start[1..] ==> c in line;
      } else {
        var (key, rest) := NextToken(start, SEPARATORS);
        var (val, _) := NextToken(rest, SEPARATORS);
        CleanedClean(key, start);
        CleanedClean(val, start);
      }
    }
  }

  lemma CleanedClean(token: Option<string>, start: string)
    requires OneLine(start) && ']' !in start
    requires token.Some? ==> Free(token.value, SEPARATORS) && forall c :: c in token.value ==> c in start
    ensures Clean(Cleaned(token))
  {}

  lemma DoClean(store: Store, op: Op)
    requires CleanStore(store) && OneLine(op.name)
    requires op.write.Some? ==> Clean(op.write.value.key) && Clean(op.write.value.value)
    ensures CleanStore(Do(store, op))
  {
    var s := LoadSection(store, op.name);
    assert CleanStore(s);
  }

  lemma {:induction false} ParseLinesClean(st: State, lines: seq<string>)
    requires CleanStore(st.store) && WellKept(st.store) && (st.section.Some? ==> OneLine(st.section.value))
    requires forall i :: 0 <= i < |lines| ==> OneLine(lines[i])
    ensures var r := ParseLines(st, lines); r.Ok? ==> CleanStore(r.value.store) && WellKept(r.value.store)
    decreases |lines|
  {
    if lines != [] {
      LineOpClean(st, lines[0]);
      var r := LineOp(st, lines[0]);
      if r.Ok? {
        if r.value.Some? {
          DoClean(st.store, r.value.value);
          DoKeeps(st.store, r.value.value, "");
        }
        ParseLinesClean(ParseLine(st, lines[0]).value, lines[1..]);
      }
    }
  }

  lemma ParsedIsClean(text: string)
    ensures Parse(text).Ok? ==> CleanStore(Parse(text).value) && WellKept(Parse(text).value)
  {
    ParseLinesClean(State([], None), Tokens(text, NEWLINE));
  }
}
