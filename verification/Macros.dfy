/**
The macro recorder's file: three M-states of eighteen G-keys, each with a sequence of recorded key
steps, dumped as text and restored from it.
*/
module Macros {
  import opened Sequences
  import opened Text
  import opened Scan

  const MSTATES: nat := 3
  const GKEYS: nat := 18
  const MAX_STEPS: nat := 1024
  const UINT: nat := 0x1_0000_0000
  const STATE_FORMAT: string := "Codes" + (" " + ("for" + (" " + ("MKey" + " "))))

  datatype Step = Step(keycode: nat, pressed: bool, modifiers: nat)

  /** The recorded steps of every key; key `g` of M-state `m` stands at 18 * m + g. */
  type Tables = seq<seq<Step>>

  predicate Shape(t: Tables) {
    |t| == MSTATES * GKEYS
  }

  /** How the display server names key codes, and the names of the keys' default symbols. */
  datatype Keyboard = Keyboard(nameOf: nat -> string, codeOf: string -> nat, defaults: nat -> string)

  // ---------- dumping ----------

  function Direction(pressed: bool): string {
    if pressed then "Down" else "Up"
  }

  function StepLine(kb: Keyboard, s: Step): string {
    "\t" + kb.nameOf(s.keycode) + " " + Direction(s.pressed) + " " + Digits(s.modifiers % UINT) + "\n"
  }

  function StepLines(kb: Keyboard, steps: seq<Step>): (lines: seq<string>)
    ensures |lines| == |steps|
    ensures forall i :: 0 <= i < |lines| ==> lines[i] == StepLine(kb, steps[i])
  {
    if steps == [] then [] else [StepLine(kb, steps[0])] + StepLines(kb, steps[1..])
  }

  function KeyName(g: nat): string {
    "G" + Digits(g + 1)
  }

  /** A key without a macro shows its default symbol on the key's own line. */
  function KeyLines(kb: Keyboard, p: nat, steps: seq<Step>): seq<string> {
    var title := "Key " + KeyName(p % GKEYS) + ":";
    if steps == [] then [title + "\t" + kb.defaults(p) + "\n"]
    else [title + "\n"] + StepLines(kb, steps)
  }

  function StateTitle(m: nat): seq<string> {
    (if m > 0 then ["\n", "\n"] else []) + [STATE_FORMAT + Digits(m + 1) + "\n"]
  }

  /** The lines from position `p` of the tables on. */
  function DumpFrom(kb: Keyboard, t: Tables, p: nat): seq<string>
    requires Shape(t) && p <= |t|
    decreases |t| - p
  {
    if p == |t| then []
    else (if p % GKEYS == 0 then StateTitle(p / GKEYS) else []) + KeyLines(kb, p, t[p]) + DumpFrom(kb, t, p + 1)
  }

  function Dump(kb: Keyboard, t: Tables): string
    requires Shape(t)
  {
    Flat(DumpFrom(kb, t, 0))
  }

  // ---------- restoring ----------

  /** The tables so far, the current M-state and G-key, and the next step to fill. */
  datatype State = State(tables: Tables, mkey: nat, key: nat, i: nat)

  /** An unsigned variable after a scan into it (which may have failed) and a decrement. */
  function ScannedIndex(line: string, format: string, before: nat): nat
    requires before < UINT
  {
    var v := match Match(line, format)
      case None => before
      case Some(rest) =>
        match ScanInt(rest)
        case None => before
        case Some((n, _)) => n % UINT;
    (v + UINT - 1) % UINT
  }

  /** Only the first two characters of a direction count. */
  predicate SaysUp(dir: string) {
    |dir| >= 2 && dir[..2] == "Up"
  }

  /** A scanned step; a line without key and direction, or with overlong ones, is a memory fault. */
  function ScanStep(kb: Keyboard, line: string): Result<Step> {
    match ScanWord(line)
    case None => Fault
    case Some((code, r1)) =>
      match ScanWord(r1)
      case None => Fault
      case Some((dir, r2)) =>
        if |code| >= 64 || |dir| >= 20 then Fault
        else Ok(Step(kb.codeOf(code), !SaysUp(dir), ModifiersOf(r2)))
  }

  /** Modifiers stay zero if there is no number. */
  function ModifiersOf(s: string): nat {
    match ScanInt(s) case None => 0 case Some((n, _)) => n % UINT
  }

  /** Puts a step at place `i` of a key and makes it the last one. */
  function PutStep(st: State, s: Step): Result<State> {
    var p := GKEYS * st.mkey + st.key;
    if st.mkey >= MSTATES || st.key >= GKEYS || st.i >= MAX_STEPS then Fault
    else if p >= |st.tables| || st.i > |st.tables[p]| then Fault
    else Ok(st.(tables := st.tables[p := st.tables[p][..st.i] + [s]], i := st.i + 1))
  }

  predicate InRange(st: State) {
    st.mkey < UINT && st.key < UINT
  }

  function RestoreLine(kb: Keyboard, st: State, line: string): (r: Result<State>)
    requires InRange(st)
    ensures r.Ok? ==> InRange(r.value)
  {
    if line == [] || line[0] == '#' then Ok(st)
    else if line[0] == 'C' then Ok(st.(mkey := ScannedIndex(line, STATE_FORMAT, st.mkey), i := 0))
    else if line[0] == 'K' then Ok(st.(key := ScannedIndex(line, "Key G", st.key), i := 0))
    else if line[0] == '\t' then
      match ScanStep(kb, line)
      case Fault => Fault
      case Ok(s) => PutStep(st, s)
    else Ok(st)
  }

  function RestoreLines(kb: Keyboard, st: State, lines: seq<string>): (r: Result<State>)
    requires InRange(st)
    ensures r.Ok? ==> InRange(r.value)
    decreases |lines|
  {
    if lines == [] then Ok(st)
    else
      match RestoreLine(kb, st, lines[0])
      case Fault => Fault
      case Ok(st') => RestoreLines(kb, st', lines[1..])
  }

  function RestoreV1(kb: Keyboard, t: Tables, text: string): Result<Tables> {
    match RestoreLines(kb, State(t, 0, 0, 0), Pieces(text))
    case Fault => Fault
    case Ok(st) => Ok(st.tables)
  }

  const VERSION_WORDS: string := "G15Macro" + (" " + ("config" + (" " + "version")))
  const VERSION_FORMAT: string := VERSION_WORDS + " "

  /** The version a line declares, unless one was found already. */
  function VersionAfter(line: string, version: nat): nat {
    if version == 0 && line != [] && line[0] != '#' && VERSION_WORDS <= line then
      match Match(line, VERSION_FORMAT)
      case None => 0
      case Some(rest) => match ScanInt(rest) case None => 0 case Some((n, _)) => n % UINT
    else version
  }

  function VersionOf(lines: seq<string>, version: nat): nat
    decreases |lines|
  {
    if lines == [] then version else VersionOf(lines[1..], VersionAfter(lines[0], version))
  }

  /** The version a line declares by itself; zero if none. */
  function Declares(line: string): nat {
    VersionAfter(line, 0)
  }

  /** The first element to which `f` gives something, or the number of elements. */
  function FirstGiven<T>(f: T -> nat, s: seq<T>): (i: nat)
    ensures i <= |s| && (i < |s| ==> f(s[i]) != 0)
    ensures forall j :: 0 <= j < i ==> f(s[j]) == 0
  {
    if s == [] || f(s[0]) != 0 then 0 else 1 + FirstGiven(f, s[1..])
  }

  /** A file is of the version that its first declaring line declares, and of version zero exactly if no line
      declares one. */
  lemma {:induction false} VersionIsFirstDeclared(lines: seq<string>)
    ensures var i := FirstGiven(Declares, lines);
      VersionOf(lines, 0) == if i < |lines| then Declares(lines[i]) else 0
  {
    if lines != [] {
      if Declares(lines[0]) == 0 {
        VersionIsFirstDeclared(lines[1..]);
      } else {
        VersionStays(lines[1..], Declares(lines[0]));
      }
    }
  }

  lemma {:induction false} VersionStays(lines: seq<string>, version: nat)
    requires version != 0
    ensures VersionOf(lines, version) == version
  {
    if lines != [] { VersionStays(lines[1..], version); }
  }

  /** What restoring a file comes to. */
  datatype Outcome = Restored(tables: Tables) | Newer | Unreadable | Unsupported

  function Restore(kb: Keyboard, t: Tables, text: string): Outcome {
    var version := VersionOf(Pieces(text), 0);
    if version == 0 then
      match RestoreV1(kb, t, text)
      case Fault => Unreadable
      case Ok(r) => Restored(r)
    else if version == 2 then Newer
    else if version > 2 then Unsupported
    else Restored(t)
  }

  /** A printed version is the one that is declared, and a line that begins otherwise declares none. */
  lemma DeclaresPrinted(n: nat, rest: string)
    requires rest != [] ==> DigitValue(rest[0]) >= 10 && rest[0] != 'x' && rest[0] != 'X'
    ensures Declares(VERSION_FORMAT + (Digits(n) + rest)) == n % UINT
  {
    VersionBlanks();
    MatchPrinted(VERSION_FORMAT, Digits(n) + rest);
    ScanPrinted(n, rest);
    BeginsWith(VERSION_WORDS, " ", Digits(n) + rest);
  }

  lemma BeginsWith(a: string, b: string, c: string)
    requires a != []
    ensures a <= (a + b) + c && ((a + b) + c)[0] == a[0]
  {}

  lemma OthersDeclareNothing(line: string)
    requires !(VERSION_WORDS <= line)
    ensures Declares(line) == 0
  {}

  lemma VersionBlanks()
    ensures SingleBlanks(VERSION_FORMAT, '0') && VERSION_WORDS[0] == 'G'
  {
    SingleBlanksWord("version", " ", '0');
    SingleBlanksBlank("version" + " ", '0');
    SingleBlanksWord("config", " " + ("version" + " "), '0');
    SingleBlanksBlank("config" + (" " + ("version" + " ")), '0');
    SingleBlanksWord("G15Macro", " " + ("config" + (" " + ("version" + " "))), '0');
    Assoc("G15Macro", " " + ("config" + (" " + "version")), " ");
    Assoc(" ", "config" + (" " + "version"), " ");
    Assoc("config", " " + "version", " ");
    Assoc(" ", "version", " ");
  }

  /** The first line that declares a version decides: the second is read by a reader of its own, any later one
      is refused, and of one that says it is the first nothing is read; without such a line the file is read
      as the first version was written. */
  lemma VersionDecides(kb: Keyboard, t: Tables, text: string)
    ensures var lines := Pieces(text);
      var i := FirstGiven(Declares, lines);
      Restore(kb, t, text) ==
        if i == |lines| then match RestoreV1(kb, t, text) case Fault => Unreadable case Ok(r) => Restored(r)
        else if Declares(lines[i]) == 1 then Restored(t)
        else if Declares(lines[i]) == 2 then Newer
        else Unsupported
  {
    VersionIsFirstDeclared(Pieces(text));
  }

  /** A version line without a number declares none. */
  lemma DeclaresNoNumber(rest: string)
    requires rest != [] && !IsSpace(rest[0]) && ScanInt(rest).None?
    ensures Declares(VERSION_FORMAT + rest) == 0
  {
    VersionBlanks();
    MatchPrinted(VERSION_FORMAT, rest);
  }

  // ---------- restoring any file ----------

  lemma {:induction false} RestoreConcat(kb: Keyboard, st: State, a: seq<string>, b: seq<string>)
    requires InRange(st)
    ensures RestoreLines(kb, st, a + b) ==
      match RestoreLines(kb, st, a) case Fault => Fault case Ok(next) => RestoreLines(kb, next, b)
    decreases |a|
  {
    if a == [] {
      assert a + b == b;
    } else {
      assert (a + b)[1..] == a[1..] + b;
      var r := RestoreLine(kb, st, a[0]);
      if r.Ok? { RestoreConcat(kb, r.value, a[1..], b); }
    }
  }

  /** Remarks, and lines that are no titles and no steps, make no difference wherever they stand. */
  lemma RemarksAreIgnored(kb: Keyboard, st: State, a: seq<string>, remark: string, b: seq<string>)
    requires InRange(st)
    requires remark == [] || (remark[0] != 'C' && remark[0] != 'K' && remark[0] != '\t')
    ensures RestoreLines(kb, st, a + ([remark] + b)) == RestoreLines(kb, st, a + b)
  {
    RestoreConcat(kb, st, a, [remark] + b);
    RestoreConcat(kb, st, a, b);
    var r := RestoreLines(kb, st, a);
    if r.Ok? { FirstLine(kb, r.value, remark, b); }
  }

  predicate Fits(t: Tables) {
    Shape(t) && forall p :: 0 <= p < |t| ==> |t[p]| <= 1024
  }

  /** Whatever the file, a restored table has its 54 keys, and none has more than 1024 steps. */
  lemma {:induction false} RestoredFits(kb: Keyboard, st: State, lines: seq<string>)
    requires InRange(st) && Fits(st.tables) && RestoreLines(kb, st, lines).Ok?
    ensures Fits(RestoreLines(kb, st, lines).value.tables)
    decreases |lines|
  {
    if lines != [] { RestoredFits(kb, RestoreLine(kb, st, lines[0]).value, lines[1..]); }
  }

  /** A step for a key that there is not, or one too many, is a memory fault. */
  lemma StrayStepFaults(kb: Keyboard, st: State, line: string)
    requires InRange(st) && line != [] && line[0] == '\t'
    requires st.mkey >= 3 || st.key >= 18 || st.i >= 1024
    ensures RestoreLine(kb, st, line).Fault?
  {}

  /** A step by hand: key and direction between any blanks. It is a release exactly if the direction begins with
      Up; more than 63 or 19 characters overrun their arrays. */
  lemma StepByHand(kb: Keyboard, b1: string, code: string, b2: string, dir: string, rest: string)
    requires AllBlank(b1) && AllBlank(b2) && b2 != [] && IsWord(code) && IsWord(dir)
    requires rest != [] ==> IsSpace(rest[0])
    ensures ScanStep(kb, b1 + (code + (b2 + (dir + rest)))) ==
      if |code| > 63 || |dir| > 19 then Fault else Ok(Step(kb.codeOf(code), !("Up" <= dir), ModifiersOf(rest)))
  {
    ScanBlanksWord(b1, code, b2 + (dir + rest));
    ScanBlanksWord(b2, dir, rest);
  }

  /** Without a key or a direction it is refused. */
  lemma StepNeedsTwoWords(kb: Keyboard, b1: string, code: string, b2: string)
    requires AllBlank(b1) && AllBlank(b2) && IsWord(code)
    ensures ScanStep(kb, b1) == Fault && ScanStep(kb, b1 + (code + b2)) == Fault
  {
    ScanNoWord(b1);
    ScanNoWord(b2);
    ScanBlanksWord(b1, code, b2);
  }

  /** A title without a number counts down from where it was, on a counter that wraps. */
  lemma TitleWithoutNumber(format: string, rest: string, before: nat)
    requires Printable(format) && before < 0x1_0000_0000
    requires rest != [] && !IsSpace(rest[0]) && rest[0] != '-' && rest[0] != '+' && DigitValue(rest[0]) >= 10
    ensures ScannedIndex(format + rest, format, before) == if before == 0 then 0xFFFF_FFFF else before - 1
  {
    MatchPrinted(format, rest);
    ScanNoNumber("", rest);
    assert "" + rest == rest;
  }

  /** Its modifiers are the number behind the direction, or none. */
  lemma ModifiersByHand(blanks: string, n: nat, rest: string)
    requires AllBlank(blanks)
    requires rest != [] ==> DigitValue(rest[0]) >= 10 && rest[0] != 'x' && rest[0] != 'X'
    ensures ModifiersOf(blanks + (Digits(n) + rest)) == n % UINT && ModifiersOf(blanks) == 0
  {
    TrimBlanks(blanks, Digits(n) + rest);
    ScanPrinted(n, rest);
    TrimBlanks(blanks, "");
    assert blanks + "" == blanks;
  }

  /** Steps before any title belong to the first key of the first M-state. */
  lemma StepsWithoutTitle(kb: Keyboard, t: Tables, steps: seq<Step>)
    requires Shape(t) && steps != [] && |steps| <= MAX_STEPS && WritableSteps(kb, steps)
    ensures RestoreLines(kb, State(t, 0, 0, 0), StepLines(kb, steps)) == Ok(State(t[0 := steps], 0, 0, |steps|))
    ensures RestoreV1(kb, t, Flat(StepLines(kb, steps))) == Ok(t[0 := steps])
  {
    var st := State(t, 0, 0, 0);
    RestoreSteps(kb, st, 0, steps, []);
    assert StepLines(kb, steps) + [] == StepLines(kb, steps);
    assert t[0][..0] + steps == steps;
    StepLinesAreLines(kb, steps);
    PiecesOfLines(StepLines(kb, steps));
  }

  lemma StepLinesAreLines(kb: Keyboard, steps: seq<Step>)
    requires WritableSteps(kb, steps)
    ensures forall i :: 0 <= i < |steps| ==> IsLine(StepLines(kb, steps)[i])
  {
    forall i | 0 <= i < |steps| ensures IsLine(StepLines(kb, steps)[i]) { StepLineIsLine(kb, steps[i]); }
  }

  // ---------- restoring what was dumped ----------

  predicate Plain(name: string) {
    name != [] && |name| < 64 && forall c :: c in name ==> !IsSpace(c)
  }

  /** The tables can be written down: steps fit their array, key codes and names correspond, and
      modifiers fit a signed integer. */
  ghost predicate Writable(kb: Keyboard, t: Tables) {
    && Shape(t)
    && (forall p :: 0 <= p < |t| ==> Plain(kb.defaults(p)))
    && (forall p :: 0 <= p < |t| ==> |t[p]| <= MAX_STEPS && WritableSteps(kb, t[p]))
  }

  ghost predicate WritableSteps(kb: Keyboard, steps: seq<Step>) {
    forall i :: 0 <= i < |steps| ==> WritableStep(kb, steps[i])
  }

  predicate WritableStep(kb: Keyboard, s: Step) {
    Plain(kb.nameOf(s.keycode)) && kb.codeOf(kb.nameOf(s.keycode)) == s.keycode && s.modifiers < 0x8000_0000
  }

  // Each printed line is read in one piece and scanned as what it says.

  function Bound(k: nat): nat {
    if k == 0 then 1 else 10 * Bound(k - 1)
  }

  lemma {:induction false} DigitsLength(n: nat, k: nat)
    requires k >= 1 && n < Bound(k)
    ensures |Digits(n)| <= k
  {
    if n >= 10 { DigitsLength(n / 10, k - 1); }
  }

  lemma DigitsShort(n: nat)
    requires n < UINT
    ensures |Digits(n)| <= 10 && '\n' !in Digits(n)
  {
    assert Bound(10) == 10_000_000_000;
    DigitsLength(n, 10);
  }

  lemma IsLineWith(body: string)
    requires |body| < LINE_SIZE - 1 && '\n' !in body
    ensures IsLine(body + "\n")
  {
    assert (body + "\n")[..|body|] == body;
  }

  lemma StepLineIsLine(kb: Keyboard, s: Step)
    requires WritableStep(kb, s)
    ensures IsLine(StepLine(kb, s)) && StepLine(kb, s)[0] == '\t'
  {
    DigitsShort(s.modifiers % UINT);
    var dir := Direction(s.pressed);
    assert '\n' !in dir;
    IsLineWith("\t" + kb.nameOf(s.keycode) + " " + dir + " " + Digits(s.modifiers % UINT));
  }

  lemma ModifiersScan(n: nat)
    ensures ScanInt(" " + Digits(n) + "\n") == Some((n, "\n"))
  {
    var s := Digits(n) + "\n";
    ScanPrinted(n, "\n");
    assert " " + Digits(n) + "\n" == " " + s && (" " + s)[1..] == s;
  }

  lemma DirectionScans(pressed: bool, rest: string)
    requires rest != [] && IsSpace(rest[0])
    ensures ScanWord(" " + Direction(pressed) + rest) == Some((Direction(pressed), rest))
    ensures |Direction(pressed)| < 20 && SaysUp(Direction(pressed)) == !pressed
  {
    var dir := Direction(pressed);
    assert forall c :: c in dir ==> !IsSpace(c);
    ScanPrintedWord(' ', dir, rest);
    assert dir[..2] == if pressed then "Do" else "Up";
    assert "Do"[0] != "Up"[0];
  }

  lemma Regroup(a: string, b: string, c: string, d: string, e: string, f: string, g: string)
    ensures a + b + c + d + e + f + g == a + b + (c + d + (e + f + g))
  {
    var ab, ef := a + b, e + f;
    Assoc(ab + c, d, ef + g);
    Assoc(ab, c, d);
    Assoc(ab, c + d, ef + g);
    Assoc(ab + c + d, ef, g);
    Assoc(ab + c + d, e, f);
  }

  lemma StepLineParts(kb: Keyboard, s: Step)
    requires s.modifiers < UINT
    ensures StepLine(kb, s) ==
      "\t" + kb.nameOf(s.keycode) + (" " + Direction(s.pressed) + (" " + Digits(s.modifiers) + "\n"))
  {
    Regroup("\t", kb.nameOf(s.keycode), " ", Direction(s.pressed), " ", Digits(s.modifiers), "\n");
  }

  lemma {:induction false} StepLineScans(kb: Keyboard, s: Step)
    requires WritableStep(kb, s)
    ensures ScanStep(kb, StepLine(kb, s)) == Ok(s)
  {
    var name, dir := kb.nameOf(s.keycode), Direction(s.pressed);
    var r2 := " " + Digits(s.modifiers) + "\n";
    var r1 := " " + dir + r2;
    StepLineParts(kb, s);
    ScanPrintedWord('\t', name, r1);
    DirectionScans(s.pressed, r2);
    ModifiersScan(s.modifiers);
    assert ModifiersOf(r2) == s.modifiers;
    ScanStepParts(kb, StepLine(kb, s), name, r1, dir, r2);
  }

  lemma ScanStepParts(kb: Keyboard, line: string, code: string, r1: string, dir: string, r2: string)
    requires ScanWord(line) == Some((code, r1)) && ScanWord(r1) == Some((dir, r2))
    requires |code| < 64 && |dir| < 20
    ensures ScanStep(kb, line) == Ok(Step(kb.codeOf(code), !SaysUp(dir), ModifiersOf(r2)))
  {}

  /** A printed index is scanned into the variable it came from. */
  lemma IndexScans(format: string, n: nat, tail: string, before: nat)
    requires SingleBlanks(format, '0') && n + 1 < UINT && before < UINT
    requires tail != [] && DigitValue(tail[0]) >= 10 && tail[0] != 'x' && tail[0] != 'X'
    ensures ScannedIndex(format + (Digits(n + 1) + tail), format, before) == n
  {
    MatchPrinted(format, Digits(n + 1) + tail);
    ScanPrinted(n + 1, tail);
    BackToIndex(n);
  }

  lemma BackToIndex(n: nat)
    requires n + 1 < UINT
    ensures ((n + 1) % UINT + UINT - 1) % UINT == n
  {}

  /** A format that an index can be printed behind and scanned from. */
  predicate Printable(format: string) {
    SingleBlanks(format, '0') && format != [] && |format| < 100 && '\n' !in format
  }

  lemma StateFormat()
    ensures Printable(STATE_FORMAT)
  {
    StateFormatBlanks();
    NoNewline(STATE_FORMAT);
  }

  lemma NoNewline(s: string)
    requires forall i :: 0 <= i < |s| ==> s[i] != '\n'
    ensures '\n' !in s
  {}

  lemma StateFormatBlanks()
    ensures SingleBlanks(STATE_FORMAT, '0')
  {
    SingleBlanksWord("MKey", " ", '0');
    SingleBlanksBlank("MKey" + " ", '0');
    SingleBlanksWord("for", " " + ("MKey" + " "), '0');
    SingleBlanksBlank("for" + (" " + ("MKey" + " ")), '0');
    SingleBlanksWord("Codes", " " + ("for" + (" " + ("MKey" + " "))), '0');
    assert STATE_FORMAT == "Codes" + (" " + ("for" + (" " + ("MKey" + " "))));
  }

  lemma KeyFormat()
    ensures Printable("Key G")
  {
    SingleBlanksWord("G", "", '0');
    SingleBlanksBlank("G" + "", '0');
    SingleBlanksWord("Key", " " + ("G" + ""), '0');
    assert "Key" + (" " + ("G" + "")) == "Key G";
  }

  /** A line made of a format, a printed index and a rest. */
  lemma TitledLine(format: string, n: nat, after: string, before: nat)
    requires Printable(format) && n + 1 < UINT && before < UINT
    requires |after| < 100 && '\n' !in after
    requires after != [] ==> after[0] == ':'
    ensures var line := format + Digits(n + 1) + after + "\n";
      IsLine(line) && line[0] == format[0] && ScannedIndex(line, format, before) == n
  {
    DigitsShort(n + 1);
    IsLineWith(format + Digits(n + 1) + after);
    var tail := after + "\n";
    IndexScans(format, n, tail, before);
    Assoc(format + Digits(n + 1), after, "\n");
    Assoc(format, Digits(n + 1), tail);
  }

  lemma BareTitle(format: string, n: nat, before: nat)
    requires Printable(format) && n + 1 < UINT && before < UINT
    ensures var line := format + Digits(n + 1) + "\n";
      IsLine(line) && line[0] == format[0] && ScannedIndex(line, format, before) == n
  {
    TitledLine(format, n, "", before);
    assert format + Digits(n + 1) + "" == format + Digits(n + 1);
  }

  lemma {:induction false} StateLineScans(m: nat, before: nat)
    requires m < MSTATES && before < UINT
    ensures var line := STATE_FORMAT + Digits(m + 1) + "\n";
      IsLine(line) && line[0] == 'C' && ScannedIndex(line, STATE_FORMAT, before) == m
  {
    StateFormat();
    BareTitle(STATE_FORMAT, m, before);
  }

  lemma {:induction false} KeyLineScans(g: nat, after: string, before: nat)
    requires g < GKEYS && before < UINT && |after| < 90 && '\n' !in after
    ensures var line := "Key " + KeyName(g) + ":" + after + "\n";
      IsLine(line) && line[0] == 'K' && ScannedIndex(line, "Key G", before) == g
  {
    KeyFormat();
    TitledLine("Key G", g, ":" + after, before);
    assert "Key " + KeyName(g) + ":" + after == "Key G" + Digits(g + 1) + (":" + after);
  }

  // Restoring a key, a table.

  /** Key `p` of the tables gets these steps behind its first `i`. */
  function WithSteps(st: State, p: nat, steps: seq<Step>): State
    requires p < |st.tables| && st.i <= |st.tables[p]|
  {
    if steps == [] then st
    else st.(tables := st.tables[p := st.tables[p][..st.i] + steps], i := st.i + |steps|)
  }

  lemma {:induction false} RestoreSteps(kb: Keyboard, st: State, p: nat, steps: seq<Step>, more: seq<string>)
    requires Shape(st.tables) && st.mkey < MSTATES && st.key < GKEYS && p == GKEYS * st.mkey + st.key
    requires st.i <= |st.tables[p]| && st.i + |steps| <= MAX_STEPS && WritableSteps(kb, steps)
    ensures RestoreLines(kb, st, StepLines(kb, steps) + more) == RestoreLines(kb, WithSteps(st, p, steps), more)
    decreases |steps|
  {
    if steps == [] {
      assert StepLines(kb, steps) + more == more;
    } else {
      var rest := StepLines(kb, steps[1..]) + more;
      RestoreStep(kb, st, p, steps[0]);
      FirstLine(kb, st, StepLine(kb, steps[0]), rest);
      Assoc([StepLine(kb, steps[0])], StepLines(kb, steps[1..]), more);
      RestoreSteps(kb, WithSteps(st, p, [steps[0]]), p, steps[1..], more);
      WithStepsStep(st, p, steps);
    }
  }

  lemma RestoreStep(kb: Keyboard, st: State, p: nat, s: Step)
    requires Shape(st.tables) && st.mkey < MSTATES && st.key < GKEYS && p == GKEYS * st.mkey + st.key
    requires st.i <= |st.tables[p]| && st.i < MAX_STEPS && WritableStep(kb, s)
    ensures RestoreLine(kb, st, StepLine(kb, s)) == Ok(WithSteps(st, p, [s]))
  {
    StepLineIsLine(kb, s);
    StepLineScans(kb, s);
  }

  lemma WithStepsStep(st: State, p: nat, steps: seq<Step>)
    requires p < |st.tables| && st.i <= |st.tables[p]| && steps != []
    ensures WithSteps(WithSteps(st, p, [steps[0]]), p, steps[1..]) == WithSteps(st, p, steps)
  {
    var next := WithSteps(st, p, [steps[0]]);
    assert next.tables[p][..next.i] == next.tables[p];
    if steps[1..] == [] { assert steps == [steps[0]]; }
    assert next.tables[p] + steps[1..] == st.tables[p][..st.i] + steps;
    assert next.tables[p := st.tables[p][..st.i] + steps] == st.tables[p := st.tables[p][..st.i] + steps];
  }

  /** One key's lines set that key, if it has a macro, and nothing else. */
  lemma {:induction false} RestoreKey(kb: Keyboard, st: State, p: nat, steps: seq<Step>, more: seq<string>)
    requires Shape(st.tables) && InRange(st) && p < |st.tables| && st.mkey == p / GKEYS
    requires |steps| <= MAX_STEPS && WritableSteps(kb, steps) && Plain(kb.defaults(p))
    ensures RestoreLines(kb, st, KeyLines(kb, p, steps) + more) ==
      RestoreLines(kb, WithSteps(st.(key := p % GKEYS, i := 0), p, steps), more)
  {
    var title := KeyLines(kb, p, steps)[0];
    KeyTitle(kb, st, p, steps);
    KeyLinesCons(kb, p, steps, more);
    FirstLine(kb, st, title, StepLines(kb, steps) + more);
    PlaceSplit(p);
    RestoreSteps(kb, st.(key := p % GKEYS, i := 0), p, steps, more);
  }

  lemma KeyLinesCons(kb: Keyboard, p: nat, steps: seq<Step>, more: seq<string>)
    ensures KeyLines(kb, p, steps) + more == [KeyLines(kb, p, steps)[0]] + (StepLines(kb, steps) + more)
  {}

  lemma PlaceSplit(p: nat)
    requires p < MSTATES * GKEYS
    ensures p == GKEYS * (p / GKEYS) + p % GKEYS && p / GKEYS < MSTATES && p % GKEYS < GKEYS
  {}

  lemma KeyTitle(kb: Keyboard, st: State, p: nat, steps: seq<Step>)
    requires InRange(st) && p < MSTATES * GKEYS && Plain(kb.defaults(p))
    ensures RestoreLine(kb, st, KeyLines(kb, p, steps)[0]) == Ok(st.(key := p % GKEYS, i := 0))
  {
    var title := "Key " + KeyName(p % GKEYS) + ":";
    if steps == [] {
      PlainIsLine(kb.defaults(p));
      KeyLineScans(p % GKEYS, "\t" + kb.defaults(p), st.key);
      Assoc(title, "\t", kb.defaults(p));
    } else {
      KeyLineScans(p % GKEYS, "", st.key);
      assert title + "" == title;
    }
  }

  lemma PlainIsLine(name: string)
    requires Plain(name)
    ensures '\n' !in name
  {}

  lemma FirstLine(kb: Keyboard, st: State, line: string, more: seq<string>)
    requires InRange(st) && RestoreLine(kb, st, line).Ok?
    ensures RestoreLines(kb, st, [line] + more) == RestoreLines(kb, RestoreLine(kb, st, line).value, more)
  {
    assert ([line] + more)[1..] == more;
  }

  /** The M-state title, with the blank lines before it, selects the M-state. */
  lemma RestoreTitle(kb: Keyboard, st: State, m: nat, more: seq<string>)
    requires InRange(st) && m < MSTATES
    ensures RestoreLines(kb, st, StateTitle(m) + more) == RestoreLines(kb, st.(mkey := m, i := 0), more)
  {
    var title := STATE_FORMAT + Digits(m + 1) + "\n";
    StateLineScans(m, st.mkey);
    FirstLine(kb, st, title, more);
    if m > 0 {
      FirstLine(kb, st, "\n", [title] + more);
      FirstLine(kb, st, "\n", ["\n"] + ([title] + more));
      assert StateTitle(m) + more == ["\n"] + (["\n"] + ([title] + more));
    } else {
      assert StateTitle(m) + more == [title] + more;
    }
  }

  /** The tables `t` laid over `t0` in the first `p` places: a key with a macro gets it, a key without
      one keeps what it had. */
  function Overlaid(t0: Tables, t: Tables, p: nat): (r: Tables)
    requires Shape(t0) && Shape(t) && p <= |t|
    ensures Shape(r)
    ensures forall j :: 0 <= j < |r| ==> r[j] == if j < p && t[j] != [] then t[j] else t0[j]
  {
    if p == 0 then t0
    else
      var r := Overlaid(t0, t, p - 1);
      if t[p - 1] == [] then r else r[p - 1 := t[p - 1]]
  }

  /** The lines for place `p`: its M-state title, if it is the first key there, and its own lines. */
  lemma RestorePlace(kb: Keyboard, st: State, p: nat, steps: seq<Step>, more: seq<string>)
    requires Shape(st.tables) && InRange(st) && p < |st.tables| && (p % GKEYS != 0 ==> st.mkey == p / GKEYS)
    requires |steps| <= MAX_STEPS && WritableSteps(kb, steps) && Plain(kb.defaults(p))
    ensures
      RestoreLines(kb, st, (if p % GKEYS == 0 then StateTitle(p / GKEYS) else []) + KeyLines(kb, p, steps) + more) ==
      RestoreLines(kb, WithSteps(State(st.tables, p / GKEYS, p % GKEYS, 0), p, steps), more)
  {
    var title := if p % GKEYS == 0 then StateTitle(p / GKEYS) else [];
    var keys := KeyLines(kb, p, steps);
    assert title + keys + more == title + (keys + more);
    if p % GKEYS == 0 {
      RestoreTitle(kb, st, p / GKEYS, keys + more);
      RestoreKey(kb, st.(mkey := p / GKEYS, i := 0), p, steps, more);
    } else {
      assert title + (keys + more) == keys + more;
      RestoreKey(kb, st, p, steps, more);
    }
  }

  /** The state after place `p`. */
  function AfterPlace(t0: Tables, t: Tables, p: nat): (st: State)
    requires Shape(t0) && Shape(t) && p < |t|
    ensures st.tables == Overlaid(t0, t, p + 1) && st.mkey == p / GKEYS && st.key == p % GKEYS
  {
    assert Overlaid(t0, t, p)[p][..0] + t[p] == t[p];
    WithSteps(State(Overlaid(t0, t, p), p / GKEYS, p % GKEYS, 0), p, t[p])
  }

  lemma NextPlace(p: nat)
    requires p < MSTATES * GKEYS
    ensures p / GKEYS < UINT && p % GKEYS < UINT
    ensures (p + 1) % GKEYS != 0 ==> (p + 1) / GKEYS == p / GKEYS
  {}

  lemma RestoreNext(kb: Keyboard, t0: Tables, t: Tables, p: nat, st: State)
    requires Shape(t0) && Writable(kb, t) && p < |t| && InRange(st)
    requires st.tables == Overlaid(t0, t, p) && (p % GKEYS != 0 ==> st.mkey == p / GKEYS)
    ensures RestoreLines(kb, st, DumpFrom(kb, t, p)) ==
      RestoreLines(kb, AfterPlace(t0, t, p), DumpFrom(kb, t, p + 1))
    ensures InRange(AfterPlace(t0, t, p))
  {
    RestorePlace(kb, st, p, t[p], DumpFrom(kb, t, p + 1));
    NextPlace(p);
  }

  lemma {:induction false} RestoreFrom(kb: Keyboard, t0: Tables, t: Tables, p: nat, st: State)
    requires Shape(t0) && Writable(kb, t) && p <= |t| && InRange(st)
    requires st.tables == Overlaid(t0, t, p) && (p % GKEYS != 0 ==> st.mkey == p / GKEYS)
    ensures RestoreLines(kb, st, DumpFrom(kb, t, p)).Ok?
    ensures RestoreLines(kb, st, DumpFrom(kb, t, p)).value.tables == Overlaid(t0, t, |t|)
    decreases |t| - p
  {
    if p < |t| {
      RestoreNext(kb, t0, t, p, st);
      NextPlace(p);
      RestoreFrom(kb, t0, t, p + 1, AfterPlace(t0, t, p));
    }
  }

  // The dumped text is those lines, and declares no version.

  predicate DumpedLine(line: string) {
    IsLine(line) && line[0] != 'G'
  }

  lemma KeyLinesAreLines(kb: Keyboard, p: nat, steps: seq<Step>)
    requires p < MSTATES * GKEYS && WritableSteps(kb, steps) && Plain(kb.defaults(p))
    ensures AllDumped(KeyLines(kb, p, steps))
  {
    if steps == [] {
      var after := "\t" + kb.defaults(p);
      PlainIsLine(kb.defaults(p));
      KeyLineScans(p % GKEYS, after, 0);
      assert "Key " + KeyName(p % GKEYS) + ":" + "\t" + kb.defaults(p) + "\n" ==
        "Key " + KeyName(p % GKEYS) + ":" + after + "\n";
    } else {
      KeyLineScans(p % GKEYS, "", 0);
      assert "Key " + KeyName(p % GKEYS) + ":" + "" + "\n" == "Key " + KeyName(p % GKEYS) + ":" + "\n";
      forall i | 0 <= i < |steps| ensures DumpedLine(StepLine(kb, steps[i])) { StepLineIsLine(kb, steps[i]); }
    }
  }

  lemma TitleIsLines(m: nat)
    requires m < MSTATES
    ensures AllDumped(StateTitle(m))
  {
    StateLineScans(m, 0);
    IsLineWith("");
    assert "" + "\n" == "\n";
  }

  predicate AllDumped(lines: seq<string>) {
    forall i :: 0 <= i < |lines| ==> DumpedLine(lines[i])
  }

  lemma AllDumpedConcat(a: seq<string>, b: seq<string>)
    requires AllDumped(a) && AllDumped(b)
    ensures AllDumped(a + b)
  {}

  lemma PlaceIsLines(kb: Keyboard, p: nat, steps: seq<Step>)
    requires p < MSTATES * GKEYS && WritableSteps(kb, steps) && Plain(kb.defaults(p))
    ensures AllDumped((if p % GKEYS == 0 then StateTitle(p / GKEYS) else []) + KeyLines(kb, p, steps))
  {
    if p % GKEYS == 0 { TitleIsLines(p / GKEYS); }
    KeyLinesAreLines(kb, p, steps);
    AllDumpedConcat(if p % GKEYS == 0 then StateTitle(p / GKEYS) else [], KeyLines(kb, p, steps));
  }

  lemma {:induction false} DumpIsLines(kb: Keyboard, t: Tables, p: nat)
    requires Writable(kb, t) && p <= |t|
    ensures AllDumped(DumpFrom(kb, t, p))
    decreases |t| - p
  {
    if p < |t| {
      PlaceIsLines(kb, p, t[p]);
      DumpIsLines(kb, t, p + 1);
      AllDumpedConcat((if p % GKEYS == 0 then StateTitle(p / GKEYS) else []) + KeyLines(kb, p, t[p]),
                      DumpFrom(kb, t, p + 1));
    }
  }

  lemma {:induction false} NoVersion(lines: seq<string>)
    requires AllDumped(lines)
    ensures VersionOf(lines, 0) == 0
  {
    if lines != [] {
      assert VERSION_FORMAT[..23][0] == 'G';
      assert VersionAfter(lines[0], 0) == 0;
      NoVersion(lines[1..]);
    }
  }

  /** Restoring a dump, over whatever tables: every dumped key with a macro comes back exactly, step by
      step; a key without one keeps what the tables held before. The file is taken for version one. */
  lemma {:induction false} RestoreDump(kb: Keyboard, t0: Tables, t: Tables)
    requires Shape(t0) && Writable(kb, t)
    ensures Restore(kb, t0, Dump(kb, t)) == Restored(Overlaid(t0, t, |t|))
  {
    DumpInPieces(kb, t);
    NoVersion(DumpFrom(kb, t, 0));
    RestoreFrom(kb, t0, t, 0, State(t0, 0, 0, 0));
  }

  lemma {:induction false} DumpInPieces(kb: Keyboard, t: Tables)
    requires Writable(kb, t)
    ensures Pieces(Dump(kb, t)) == DumpFrom(kb, t, 0)
    ensures AllDumped(DumpFrom(kb, t, 0))
  {
    DumpIsLines(kb, t, 0);
    PiecesOfLines(DumpFrom(kb, t, 0));
  }

  /** Hence restoring gives back what was dumped exactly when the keys without a macro were clean. */
  lemma {:induction false} RestoreIntoClean(kb: Keyboard, t0: Tables, t: Tables)
    requires Shape(t0) && Writable(kb, t)
    ensures Restore(kb, t0, Dump(kb, t)) == Restored(t) <==>
      forall p :: 0 <= p < |t| && t[p] == [] ==> t0[p] == []
  {
    RestoreDump(kb, t0, t);
    var r := Overlaid(t0, t, |t|);
    if forall p :: 0 <= p < |t| && t[p] == [] ==> t0[p] == [] {
      assert forall p :: 0 <= p < |t| ==> r[p] == t[p];
    }
    if r == t {
      forall p | 0 <= p < |t| && t[p] == [] ensures t0[p] == [] { assert r[p] == t0[p]; }
    }
  }

  // ---------- the recorder ----------

  class Recorder {
    var mstates: Tables

    constructor ()
      ensures Shape(mstates) && forall p :: 0 <= p < |mstates| ==> mstates[p] == []
    {
      mstates := seq(MSTATES * GKEYS, _ => []);
    }

    method CleanMstates()
      modifies this
      ensures Shape(mstates) && forall p :: 0 <= p < |mstates| ==> mstates[p] == []
    {
      mstates := seq(MSTATES * GKEYS, _ => []);
    }

    method DumpConfig(kb: Keyboard) returns (text: string)
      requires Shape(mstates)
      ensures text == Dump(kb, mstates)
    {
      text := "";
      var mkey := 0;
      while mkey < MSTATES
        invariant mkey <= MSTATES
        invariant text + Flat(DumpFrom(kb, mstates, GKEYS * mkey)) == Dump(kb, mstates)
      {
        text := DumpState(kb, mkey, text);
        mkey := mkey + 1;
      }
    }

    /** The title of an M-state and its keys. */
    method DumpState(kb: Keyboard, mkey: nat, before: string) returns (text: string)
      requires Shape(mstates) && mkey < MSTATES
      ensures text + Flat(DumpFrom(kb, mstates, GKEYS * (mkey + 1))) ==
        before + Flat(DumpFrom(kb, mstates, GKEYS * mkey))
    {
      var title := (if mkey > 0 then "\n\n" else "") + STATE_FORMAT + Digits(mkey + 1) + "\n";
      text := before + title;
      TitleJoins(kb, mstates, mkey);
      ghost var all := before + Flat(DumpFrom(kb, mstates, GKEYS * mkey));
      Assoc(before, title, Flat(PlaceFrom(kb, mstates, mkey, 0)));
      var gkey := 0;
      while gkey < GKEYS
        invariant gkey <= GKEYS
        invariant text + Flat(PlaceFrom(kb, mstates, mkey, gkey)) == all
      {
        text := DumpPlace(kb, mkey, gkey, text);
        gkey := gkey + 1;
      }
    }

    method DumpPlace(kb: Keyboard, mkey: nat, gkey: nat, before: string) returns (text: string)
      requires Shape(mstates) && mkey < MSTATES && gkey < GKEYS
      ensures text + Flat(PlaceFrom(kb, mstates, mkey, gkey + 1)) == before + Flat(PlaceFrom(kb, mstates, mkey, gkey))
    {
      PlaceJoins(kb, mstates, mkey, gkey);
      text := DumpKey(kb, mkey, gkey, before);
      Assoc(before, Flat(KeyLines(kb, GKEYS * mkey + gkey, mstates[GKEYS * mkey + gkey])),
            Flat(PlaceFrom(kb, mstates, mkey, gkey + 1)));
    }

    method DumpKey(kb: Keyboard, mkey: nat, gkey: nat, before: string) returns (text: string)
      requires Shape(mstates) && mkey < MSTATES && gkey < GKEYS
      ensures text == before + Flat(KeyLines(kb, GKEYS * mkey + gkey, mstates[GKEYS * mkey + gkey]))
    {
      var p := GKEYS * mkey + gkey;
      var steps := mstates[p];
      var title := "Key " + KeyName(gkey) + ":";
      PlaceIndex(mkey, gkey);
      KeyJoins(kb, p, steps);
      if |steps| == 0 {
        text := before + (title + "\t" + kb.defaults(p) + "\n");
      } else {
        text := DumpSteps(kb, steps, before + (title + "\n"));
        Assoc(before, title + "\n", Flat(StepLines(kb, steps)));
      }
    }

    method DumpSteps(kb: Keyboard, steps: seq<Step>, before: string) returns (text: string)
      ensures text == before + Flat(StepLines(kb, steps))
    {
      text := before;
      var i := 0;
      while i < |steps|
        invariant 0 <= i <= |steps|
        invariant text + Flat(StepLines(kb, steps[i..])) == before + Flat(StepLines(kb, steps))
      {
        assert steps[i..][1..] == steps[i + 1..];
        Assoc(text, StepLine(kb, steps[i]), Flat(StepLines(kb, steps[i + 1..])));
        text := text + StepLine(kb, steps[i]);
        i := i + 1;
      }
      assert steps[i..] == [];
    }

    /** Reads a file of the original layout; not ok if it makes the reader leave its arrays. */
    method RestoreV1Config(kb: Keyboard, text: string) returns (ok: bool)
      modifies this
      ensures ok <==> RestoreV1(kb, old(mstates), text).Ok?
      ensures ok ==> mstates == RestoreV1(kb, old(mstates), text).value
    {
      var st := State(mstates, 0, 0, 0);
      var file := text;
      ok := true;
      while file != []
        invariant InRange(st) && ok
        invariant RestoreLines(kb, State(old(mstates), 0, 0, 0), Pieces(text)) == RestoreLines(kb, st, Pieces(file))
        decreases |file|
      {
        var n := LineLength(file, LINE_SIZE - 1);
        var line := file[..n];
        assert Pieces(file)[0] == line && Pieces(file)[1..] == Pieces(file[n..]);
        file := file[n..];
        match RestoreLine(kb, st, line)
        case Fault => return false;
        case Ok(st') => st := st';
      }
      mstates := st.tables;
    }

    method IdentifyConfigVer(text: string) returns (version: nat)
      ensures version == VersionOf(Pieces(text), 0)
      ensures var lines := Pieces(text); var i := FirstGiven(Declares, lines);
        version == if i < |lines| then Declares(lines[i]) else 0
    {
      version := 0;
      var file := text;
      VersionIsFirstDeclared(Pieces(text));
      while file != []
        invariant VersionOf(Pieces(text), 0) == VersionOf(Pieces(file), version)
        decreases |file|
      {
        var n := LineLength(file, LINE_SIZE - 1);
        var line := file[..n];
        assert Pieces(file)[0] == line && Pieces(file)[1..] == Pieces(file[n..]);
        version := VersionAfter(line, version);
        file := file[n..];
      }
    }

    /** Restores a file whose layout it finds out first. */
    method RestoreConfig(kb: Keyboard, text: string) returns (ok: bool)
      modifies this
      ensures ok ==> Restore(kb, old(mstates), text) == Restored(mstates)
      ensures !ok ==> !Restore(kb, old(mstates), text).Restored?
    {
      var version := IdentifyConfigVer(text);
      if version == 0 {
        ok := RestoreV1Config(kb, text);
      } else {
        ok := version == 1;
      }
    }

    /** Saving, cleaning and loading is the identity. */
    method SaveAndReload(kb: Keyboard) returns (ok: bool)
      requires Writable(kb, mstates)
      modifies this
      ensures ok && mstates == old(mstates)
    {
      var text := DumpConfig(kb);
      ghost var t := mstates;
      CleanMstates();
      RestoreIntoClean(kb, mstates, t);
      ok := RestoreConfig(kb, text);
    }
  }

  lemma JoinOne(line: string)
    ensures Flat([line]) == line
  {
    assert [line][1..] == [];
  }

  /** What is still to be dumped before key `g` of M-state `m`, behind the M-state's title. */
  function PlaceFrom(kb: Keyboard, t: Tables, m: nat, g: nat): seq<string>
    requires Shape(t) && m < MSTATES && g <= GKEYS
  {
    if g == GKEYS then DumpFrom(kb, t, GKEYS * (m + 1))
    else KeyLines(kb, GKEYS * m + g, t[GKEYS * m + g]) + DumpFrom(kb, t, GKEYS * m + g + 1)
  }

  lemma PlaceIndex(m: nat, g: nat)
    requires g < GKEYS
    ensures (GKEYS * m + g) % GKEYS == g && (GKEYS * m + g) / GKEYS == m
  {}

  lemma KeyJoins(kb: Keyboard, p: nat, steps: seq<Step>)
    ensures var title := "Key " + KeyName(p % GKEYS) + ":";
      Flat(KeyLines(kb, p, steps)) ==
        if steps == [] then title + "\t" + kb.defaults(p) + "\n" else title + "\n" + Flat(StepLines(kb, steps))
  {
    var title := "Key " + KeyName(p % GKEYS) + ":";
    if steps == [] {
      JoinOne(title + "\t" + kb.defaults(p) + "\n");
    } else {
      assert KeyLines(kb, p, steps)[1..] == StepLines(kb, steps);
    }
  }

  lemma PlaceRest(kb: Keyboard, t: Tables, m: nat, g: nat)
    requires Shape(t) && m < MSTATES && g < GKEYS
    ensures DumpFrom(kb, t, GKEYS * m + g + 1) == PlaceFrom(kb, t, m, g + 1)
  {
    var q := GKEYS * m + (g + 1);
    if g + 1 < GKEYS {
      assert q % GKEYS != 0;
      assert [] + KeyLines(kb, q, t[q]) == KeyLines(kb, q, t[q]);
    } else {
      assert q == GKEYS * (m + 1);
    }
  }

  lemma PlaceJoins(kb: Keyboard, t: Tables, m: nat, g: nat)
    requires Shape(t) && m < MSTATES && g < GKEYS
    ensures Flat(PlaceFrom(kb, t, m, g)) ==
      Flat(KeyLines(kb, GKEYS * m + g, t[GKEYS * m + g])) + Flat(PlaceFrom(kb, t, m, g + 1))
  {
    var p := GKEYS * m + g;
    PlaceRest(kb, t, m, g);
    FlatConcat(KeyLines(kb, p, t[p]), DumpFrom(kb, t, p + 1));
  }

  lemma TitleJoins(kb: Keyboard, t: Tables, m: nat)
    requires Shape(t) && m < MSTATES
    ensures Flat(DumpFrom(kb, t, GKEYS * m)) ==
      (if m > 0 then "\n\n" else "") + STATE_FORMAT + Digits(m + 1) + "\n" + Flat(PlaceFrom(kb, t, m, 0))
  {
    var p := GKEYS * m;
    var title := StateTitle(m);
    assert p % GKEYS == 0 && p / GKEYS == m;
    Assoc(title, KeyLines(kb, p, t[p]), DumpFrom(kb, t, p + 1));
    FlatConcat(title, PlaceFrom(kb, t, m, 0));
    TitleJoin(m);
  }

  lemma TitleJoin(m: nat)
    ensures Flat(StateTitle(m)) == (if m > 0 then "\n\n" else "") + STATE_FORMAT + Digits(m + 1) + "\n"
  {
    var line := STATE_FORMAT + Digits(m + 1) + "\n";
    JoinOne(line);
    if m > 0 {
      assert StateTitle(m)[1..] == ["\n", line] && ["\n", line][1..] == [line];
      assert "\n" + ("\n" + line) == "\n\n" + line;
    } else {
      assert StateTitle(m) == [line];
    }
  }
}
