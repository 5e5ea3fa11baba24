/**
Line input and formatted scanning, as far as the macro files use them.
*/
module Scan {
  import opened Sequences
  import opened Text

  // ---------- lines ----------

  /** Length of the next piece that a line read takes: up to and including a newline, at most one
      less than the buffer. */
  function LineLength(s: string, room: nat): (n: nat)
    ensures n <= |s| && n <= room
    ensures s != [] && room > 0 ==> n > 0
    decreases room
  {
    if room == 0 || s == [] then 0
    else if s[0] == '\n' then 1
    else 1 + LineLength(s[1..], room - 1)
  }

  /** The pieces that successive line reads take, each of at most `room` characters. */
  function Chunks(s: string, room: nat): seq<string>
    requires room > 0
    decreases |s|
  {
    if s == [] then []
    else
      var n := LineLength(s, room);
      [s[..n]] + Chunks(s[n..], room)
  }

  /** The pieces read through a buffer of the usual size. */
  function Pieces(s: string): seq<string> {
    Chunks(s, LINE_SIZE - 1)
  }

  /** A line with its newline, short enough to be read in one piece. */
  predicate IsLine(s: string) {
    s != [] && |s| < LINE_SIZE && s[|s| - 1] == '\n' && '\n' !in s[..|s| - 1]
  }

  lemma {:induction false} LineLengthOfLine(s: string, rest: string, room: nat)
    requires s != [] && |s| <= room && s[|s| - 1] == '\n' && '\n' !in s[..|s| - 1]
    ensures LineLength(s + rest, room) == |s|
    decreases room
  {
    if |s| == 1 {
      assert (s + rest)[0] == '\n';
    } else {
      assert s[0] in s[..|s| - 1];
      assert (s + rest)[1..] == s[1..] + rest;
      assert s[1..][..|s| - 2] == s[..|s| - 1][1..];
      LineLengthOfLine(s[1..], rest, room - 1);
    }
  }

  lemma PiecesOfLine(s: string, rest: string)
    requires IsLine(s)
    ensures Pieces(s + rest) == [s] + Pieces(rest)
  {
    LineLengthOfLine(s, rest, LINE_SIZE - 1);
    assert (s + rest)[..|s|] == s && (s + rest)[|s|..] == rest;
  }

  lemma {:induction false} PiecesOfLines(lines: seq<string>)
    requires forall i :: 0 <= i < |lines| ==> IsLine(lines[i])
    ensures Pieces(Flat(lines)) == lines
  {
    if lines != [] {
      PiecesOfLine(lines[0], Flat(lines[1..]));
      PiecesOfLines(lines[1..]);
    }
  }

  // ---------- scanning ----------

  /** The literal part of a format: a blank matches any run of blanks, any other character itself. */
  function Match(s: string, format: string): Option<string>
    decreases |format|
  {
    if format == [] then Some(s)
    else if IsSpace(format[0]) then Match(TrimLeft(s), format[1..])
    else if s != [] && s[0] == format[0] then Match(s[1..], format[1..])
    else None
  }

  function WordLength(s: string): (n: nat)
    ensures n <= |s|
  {
    if s == [] || IsSpace(s[0]) then 0 else 1 + WordLength(s[1..])
  }

  /** %s: blanks, then a run of other characters. */
  function ScanWord(s: string): Option<(string, string)> {
    var t := TrimLeft(s);
    var n := WordLength(t);
    if n == 0 then None else Some((t[..n], t[n..]))
  }

  function DigitValue(c: char): nat {
    if '0' <= c <= '9' then (c - '0') as nat
    else if 'a' <= c <= 'f' then (c - 'a') as nat + 10
    else if 'A' <= c <= 'F' then (c - 'A') as nat + 10
    else 99
  }

  /** The number of leading digits of this base. */
  function Span(s: string, base: nat): (n: nat)
    ensures n <= |s|
  {
    if s != [] && DigitValue(s[0]) < base then 1 + Span(s[1..], base) else 0
  }

  function Value(s: string, base: nat): nat {
    if s == [] then 0 else Value(s[..|s| - 1], base) * base + DigitValue(s[|s| - 1])
  }

  function ScanDigits(s: string, base: nat): Option<(int, string)> {
    var n := Span(s, base);
    if n == 0 then None else Some((Value(s[..n], base), s[n..]))
  }

  function ScanUnsigned(s: string): Option<(int, string)> {
    if |s| >= 2 && s[0] == '0' && (s[1] == 'x' || s[1] == 'X') then ScanDigits(s[2..], 16)
    else if s != [] && s[0] == '0' then ScanDigits(s, 8)
    else ScanDigits(s, 10)
  }

  /** %i: blanks, a sign, and a number whose prefix tells its base. */
  function ScanInt(s: string): Option<(int, string)> {
    var t := TrimLeft(s);
    if t != [] && t[0] == '-' then
      match ScanUnsigned(t[1..])
      case None => None
      case Some((v, rest)) => Some((-v, rest))
    else if t != [] && t[0] == '+' then ScanUnsigned(t[1..])
    else ScanUnsigned(t)
  }

  lemma {:induction false} SpanOfDigits(d: string, rest: string, base: nat)
    requires forall i :: 0 <= i < |d| ==> DigitValue(d[i]) < base
    requires rest != [] ==> DigitValue(rest[0]) >= base
    ensures Span(d + rest, base) == |d|
  {
    if d == [] {
      assert d + rest == rest;
    } else {
      assert (d + rest)[1..] == d[1..] + rest;
      SpanOfDigits(d[1..], rest, base);
    }
  }

  lemma {:induction false} ValueOfDigits(n: nat)
    ensures Value(Digits(n), 10) == n
    ensures n > 0 ==> Digits(n)[0] != '0'
  {
    if n >= 10 {
      ValueOfDigits(n / 10);
      var d := Digits(n);
      assert d[..|d| - 1] == Digits(n / 10);
    } else {
      assert Digits(n)[..0] == [];
    }
  }

  /** A printed number is scanned as itself, whatever its base prefix rules, up to what follows it. */
  lemma ScanPrinted(n: nat, rest: string)
    requires rest != [] ==> DigitValue(rest[0]) >= 10 && rest[0] != 'x' && rest[0] != 'X'
    ensures ScanInt(Digits(n) + rest) == Some((n, rest))
  {
    var d := Digits(n);
    var s := d + rest;
    assert s[0] == d[0];
    ValueOfDigits(n);
    if n == 0 {
      assert d == "0";
      SpanOfDigits(d, rest, 8);
      assert s[1..] == rest;
      assert Value("0", 8) == 0 by { assert "0"[..0] == ""; }
      assert s[..1] == "0";
    } else {
      SpanOfDigits(d, rest, 10);
      assert s[..|d|] == d && s[|d|..] == rest;
    }
  }

  // ---------- other bases ----------

  /** A digit in a base up to sixteen, with small or capital letters. */
  function BaseDigit(d: nat, capital: bool): char
    requires d < 16
  {
    if d < 10 then '0' + d as char else (if capital then 'A' else 'a') + (d - 10) as char
  }

  function InBase(n: nat, base: nat, capital: bool): (s: string)
    requires base == 8 || base == 16
    ensures s != []
  {
    if n < base then [BaseDigit(n, capital)]
    else InBase(n / base, base, capital) + [BaseDigit(n % base, capital)]
  }

  lemma BaseDigitIsRead(d: nat, capital: bool)
    requires d < 16
    ensures DigitValue(BaseDigit(d, capital)) == d
  {}

  lemma {:induction false} BaseIsRead(n: nat, base: nat, capital: bool)
    requires base == 8 || base == 16
    ensures Value(InBase(n, base, capital), base) == n
    ensures Span(InBase(n, base, capital), base) == |InBase(n, base, capital)|
  {
    if n < base {
      BaseDigitIsRead(n, capital);
      OneMoreDigit("", BaseDigit(n, capital), base);
      assert "" + [BaseDigit(n, capital)] == InBase(n, base, capital);
    } else {
      var high, low := n / base, n % base;
      DivideBy(n, base);
      BaseIsRead(high, base, capital);
      BaseDigitIsRead(low, capital);
      OneMoreDigit(InBase(high, base, capital), BaseDigit(low, capital), base);
      assert InBase(n, base, capital) == InBase(high, base, capital) + [BaseDigit(low, capital)];
    }
  }

  lemma DivideBy(n: nat, base: nat)
    requires base == 8 || base == 16
    ensures n / base * base + n % base == n && n % base < base && (n >= base ==> n / base < n)
  {
    if base == 8 { assert n / 8 * 8 + n % 8 == n; } else { assert n / 16 * 16 + n % 16 == n; }
  }

  lemma {:induction false} OneMoreDigit(s: string, c: char, base: nat)
    requires Span(s, base) == |s| && DigitValue(c) < base
    ensures Value(s + [c], base) == Value(s, base) * base + DigitValue(c) && Span(s + [c], base) == |s| + 1
  {
    assert (s + [c])[..|s|] == s;
    SpansAll(s, [c], base);
  }

  lemma {:induction false} SpansAll(s: string, rest: string, base: nat)
    requires Span(s, base) == |s|
    ensures Span(s + rest, base) == |s| + Span(rest, base)
  {
    if s == [] {
      assert s + rest == rest;
    } else {
      assert (s + rest)[1..] == s[1..] + rest;
      SpansAll(s[1..], rest, base);
    }
  }

  lemma DigitsAreScanned(n: nat, base: nat, capital: bool, rest: string)
    requires (base == 8 || base == 16) && (rest != [] ==> DigitValue(rest[0]) >= base)
    ensures ScanDigits(InBase(n, base, capital) + rest, base) == Some((n, rest))
  {
    var d := InBase(n, base, capital);
    BaseIsRead(n, base, capital);
    SpansAll(d, rest, base);
    assert (d + rest)[..|d|] == d && (d + rest)[|d|..] == rest;
  }

  /** With 0x in front a number is hexadecimal, in small or capital letters. */
  lemma ScanHex(n: nat, capital: bool, x: char, rest: string)
    requires (x == 'x' || x == 'X') && (rest != [] ==> DigitValue(rest[0]) >= 16)
    ensures ScanInt("0" + ([x] + (InBase(n, 16, capital) + rest))) == Some((n, rest))
  {
    var digits := InBase(n, 16, capital) + rest;
    var s := "0" + ([x] + digits);
    DigitsAreScanned(n, 16, capital, rest);
    assert s[0] == '0' && s[1] == x && s[2..] == digits;
  }

  /** With a zero in front it is octal. */
  lemma ScanOctal(n: nat, rest: string)
    requires rest != [] ==> DigitValue(rest[0]) >= 8
    ensures ScanInt("0" + (InBase(n, 8, false) + rest)) == Some((n, rest))
  {
    var d := InBase(n, 8, false);
    OctalDigits(n, rest);
    BaseIsRead(n, 8, false);
    ScanZero(d + rest);
  }

  lemma OctalDigits(n: nat, rest: string)
    requires rest != [] ==> DigitValue(rest[0]) >= 8
    ensures ScanDigits("0" + (InBase(n, 8, false) + rest), 8) == Some((n, rest))
  {
    var d := InBase(n, 8, false);
    BaseIsRead(n, 8, false);
    ZeroInFront(d, 8);
    assert ("0" + d)[1..] == d && ("0" + d)[0] == '0';
    SpansAll("0" + d, rest, 8);
    Assoc("0", d, rest);
    FrontAndRest("0" + d, rest);
  }

  lemma FrontAndRest<T>(a: seq<T>, b: seq<T>)
    ensures (a + b)[..|a|] == a && (a + b)[|a|..] == b
  {}

  lemma ScanZero(s: string)
    requires s != [] ==> s[0] != 'x' && s[0] != 'X'
    ensures ScanInt("0" + s) == ScanDigits("0" + s, 8)
  {
    assert s != [] ==> ("0" + s)[1] == s[0];
  }

  lemma {:induction false} ZeroInFront(d: string, base: nat)
    ensures Value("0" + d, base) == Value(d, base)
  {
    if d == [] {
      assert ("0" + d)[..0] == [];
    } else {
      var n := |d| - 1;
      assert ("0" + d)[..|d|] == "0" + d[..n];
      ZeroInFront(d[..n], base);
    }
  }

  /** A sign counts. */
  lemma ScanSigned(s: string)
    requires s != [] ==> !IsSpace(s[0]) && s[0] != '-' && s[0] != '+'
    ensures ScanInt("+" + s) == ScanInt(s)
    ensures ScanInt("-" + s) == match ScanInt(s) case None => None case Some((v, rest)) => Some((-v, rest))
  {
    assert ("+" + s)[1..] == s && ("-" + s)[1..] == s;
  }

  lemma {:induction false} WordLengthOf(w: string, rest: string)
    requires forall c :: c in w ==> !IsSpace(c)
    requires rest != [] ==> IsSpace(rest[0])
    ensures WordLength(w + rest) == |w|
  {
    if w == [] {
      assert w + rest == rest;
    } else {
      assert (w + rest)[1..] == w[1..] + rest;
      WordLengthOf(w[1..], rest);
    }
  }

  /** A word after one blank is scanned as itself. */
  lemma ScanPrintedWord(blank: char, w: string, rest: string)
    requires IsSpace(blank) && w != [] && (forall c :: c in w ==> !IsSpace(c))
    requires rest != [] ==> IsSpace(rest[0])
    ensures ScanWord([blank] + w + rest) == Some((w, rest))
  {
    var s := [blank] + w + rest;
    assert s[1..] == w + rest;
    assert w[0] in w && (w + rest)[0] == w[0];
    assert TrimLeft(s) == w + rest;
    WordLengthOf(w, rest);
    assert (w + rest)[..|w|] == w && (w + rest)[|w|..] == rest;
  }

  predicate IsWord(s: string) {
    s != [] && forall c :: c in s ==> !IsSpace(c)
  }

  /** So it is after any blanks. */
  lemma ScanBlanksWord(blanks: string, w: string, rest: string)
    requires AllBlank(blanks) && IsWord(w) && (rest != [] ==> IsSpace(rest[0]))
    ensures ScanWord(blanks + (w + rest)) == Some((w, rest))
  {
    assert w[0] in w;
    TrimBlanks(blanks, w + rest);
    WordLengthOf(w, rest);
    assert (w + rest)[..|w|] == w && (w + rest)[|w|..] == rest;
  }

  /** A blank of a format stands for any blanks, or none. */
  lemma MatchBlanks(blanks: string, s: string, blank: char, format: string)
    requires AllBlank(blanks) && IsSpace(blank) && (s != [] ==> !IsSpace(s[0]))
    ensures Match(blanks + s, [blank] + format) == Match(s, format)
  {
    TrimBlanks(blanks, s);
    assert ([blank] + format)[1..] == format;
  }

  /** Blanks hold no word. */
  lemma ScanNoWord(blanks: string)
    requires AllBlank(blanks)
    ensures ScanWord(blanks) == None
  {
    TrimBlanks(blanks, "");
    assert blanks + "" == blanks;
  }

  /** Neither do they, or a text that begins with no digit or sign, hold a number. */
  lemma ScanNoNumber(blanks: string, s: string)
    requires AllBlank(blanks)
    requires s != [] ==> !IsSpace(s[0]) && s[0] != '-' && s[0] != '+' && DigitValue(s[0]) >= 10
    ensures ScanInt(blanks + s) == None
  {
    TrimBlanks(blanks, s);
  }

  /** No blank of the format is followed by another, nor by a final blank `next`. */
  predicate SingleBlanks(format: string, next: char) {
    format == [] ||
    ((IsSpace(format[0]) ==> !IsSpace(if |format| > 1 then format[1] else next)) && SingleBlanks(format[1..], next))
  }

  /** A format that was printed literally, with single blanks, is matched. */
  lemma {:induction false} MatchPrinted(format: string, rest: string)
    requires SingleBlanks(format, '0') && rest != [] && !IsSpace(rest[0])
    ensures Match(format + rest, format) == Some(rest)
  {
    if format == [] {
      assert format + rest == rest;
    } else {
      var s, t := format + rest, format[1..] + rest;
      assert s[1..] == t && s[0] == format[0];
      MatchPrinted(format[1..], rest);
      if IsSpace(format[0]) {
        assert t[0] == if |format| > 1 then format[1] else rest[0];
        assert TrimLeft(s) == t;
      }
    }
  }

  lemma {:induction false} SingleBlanksWord(w: string, format: string, next: char)
    requires (forall c :: c in w ==> !IsSpace(c)) && SingleBlanks(format, next)
    ensures SingleBlanks(w + format, next)
  {
    if w == [] {
      assert w + format == format;
    } else {
      assert w[0] in w && (w + format)[1..] == w[1..] + format;
      SingleBlanksWord(w[1..], format, next);
    }
  }

  lemma SingleBlanksBlank(format: string, next: char)
    requires format != [] && !IsSpace(format[0]) && SingleBlanks(format, next)
    ensures SingleBlanks(" " + format, next)
  {
    assert (" " + format)[1..] == format;
  }
}
