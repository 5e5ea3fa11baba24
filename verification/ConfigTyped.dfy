/**
Integers and switches as configuration values: printing and reading back.
*/
module ConfigTyped {
  import opened Text
  import opened ConfigModel
  import ConfigText

  /** Signed decimal, as printf's %i. */
  function PrintInt(v: int): (s: string)
  {
    if v < 0 then "-" + Digits(-v) else Digits(v)
  }

  predicate IsDigit(c: char) {
    '0' <= c <= '9'
  }

  /** The number read so far, extended by the leading digits of `s`. */
  function ReadDigits(s: string, sofar: nat): nat {
    if s != [] && IsDigit(s[0]) then ReadDigits(s[1..], 10 * sofar + (s[0] - '0') as nat) else sofar
  }

  /** The C library's atoi: blanks, an optional sign, digits; anything after them is ignored. */
  function ReadInt(s: string): int {
    var t := TrimLeft(s);
    if t != [] && t[0] == '-' then -(ReadDigits(t[1..], 0) as int)
    else if t != [] && t[0] == '+' then ReadDigits(t[1..], 0)
    else ReadDigits(t, 0)
  }

  lemma {:induction false} ReadDigitsSnoc(s: string, c: char, sofar: nat)
    requires IsDigit(c) && forall i :: 0 <= i < |s| ==> IsDigit(s[i])
    ensures ReadDigits(s + [c], sofar) == 10 * ReadDigits(s, sofar) + (c - '0') as nat
    decreases |s|
  {
    if s == [] {
      assert (s + [c])[1..] == [];
    } else {
      assert (s + [c])[1..] == s[1..] + [c];
      ReadDigitsSnoc(s[1..], c, 10 * sofar + (s[0] - '0') as nat);
    }
  }

  lemma {:induction false} ReadPrintedDigits(n: nat)
    ensures ReadDigits(Digits(n), 0) == n
  {
    if n >= 10 {
      ReadPrintedDigits(n / 10);
      ReadDigitsSnoc(Digits(n / 10), Digit(n % 10), 0);
    } else {
      assert Digits(n)[1..] == [];
    }
  }

  /** An integer that was printed is read back, whatever its sign and size. */
  lemma ReadPrinted(v: int)
    ensures ReadInt(PrintInt(v)) == v
  {
    var s := PrintInt(v);
    if v < 0 {
      assert s[1..] == Digits(-v);
      ReadPrintedDigits(-v);
    } else {
      ReadPrintedDigits(v);
    }
  }

  // ---------- numbers in any text ----------

  predicate AllDigits(s: string) {
    forall i :: 0 <= i < |s| ==> '0' <= s[i] <= '9'
  }

  /** What decimal digits are worth, leading zeros and all. */
  function Worth(digits: string): nat
    requires AllDigits(digits)
  {
    if digits == [] then 0
    else 10 * Worth(digits[..|digits| - 1]) + (digits[|digits| - 1] - '0') as nat
  }

  /** Blanks, at most one sign, digits, and whatever follows that is not one of these. */
  ghost predicate NumberParts(blanks: string, sign: string, digits: string, rest: string) {
    && AllBlank(blanks)
    && (sign == [] || sign == "-" || sign == "+")
    && AllDigits(digits) && (rest != [] ==> !('0' <= rest[0] <= '9'))
    && (sign == [] && digits == [] && rest != [] ==> !IsSpace(rest[0]) && rest[0] != '-' && rest[0] != '+')
  }

  /** Such a text is read as the number it spells; zero if it has no digits. */
  lemma ReadsNumber(blanks: string, sign: string, digits: string, rest: string)
    requires NumberParts(blanks, sign, digits, rest)
    ensures ReadInt(blanks + (sign + (digits + rest))) == if sign == "-" then -(Worth(digits) as int) else Worth(digits)
  {
    var number := digits + rest;
    TrimBlanks(blanks, sign + number);
    DigitsThenRest(digits, rest);
    assert sign == [] ==> sign + number == number;
    assert sign != [] ==> (sign + number)[1..] == number && (sign + number)[0] == sign[0];
  }

  lemma {:induction false} DigitsThenRest(digits: string, rest: string)
    requires AllDigits(digits) && (rest != [] ==> !IsDigit(rest[0]))
    ensures ReadDigits(digits + rest, 0) == Worth(digits)
  {
    DigitsEnd(digits, rest, 0);
    AddsUp(digits);
  }

  /** Where the digits are split does not matter. */
  lemma {:induction false} AddsUp(digits: string)
    requires AllDigits(digits)
    ensures ReadDigits(digits, 0) == Worth(digits)
  {
    if digits != [] {
      var n := |digits| - 1;
      AddsUp(digits[..n]);
      ReadDigitsSnoc(digits[..n], digits[n], 0);
      assert digits[..n] + [digits[n]] == digits;
    }
  }

  lemma {:induction false} DigitsEnd(digits: string, rest: string, sofar: nat)
    requires AllDigits(digits) && (rest != [] ==> !IsDigit(rest[0]))
    ensures ReadDigits(digits + rest, sofar) == ReadDigits(digits, sofar)
    decreases |digits|
  {
    if digits == [] {
      assert digits + rest == rest;
    } else {
      assert (digits + rest)[1..] == digits[1..] + rest;
      DigitsEnd(digits[1..], rest, 10 * sofar + (digits[0] - '0') as nat);
    }
  }

  function CountDigits(s: string): (n: nat)
    ensures n <= |s| && AllDigits(s[..n]) && (n < |s| ==> !IsDigit(s[n]))
  {
    if s != [] && IsDigit(s[0]) then 1 + CountDigits(s[1..]) else 0
  }

  /** Every text has such parts. */
  lemma EveryTextIsRead(s: string)
    ensures exists blanks, sign, digits, rest ::
      NumberParts(blanks, sign, digits, rest) && s == blanks + (sign + (digits + rest))
  {
    var t := TrimLeft(s);
    TrimSplits(s);
    var sign, digits, rest := SignAndDigits(t);
    var blanks := s[..|s| - |t|];
    assert s == blanks + t;
    assert NumberParts(blanks, sign, digits, rest);
  }

  lemma SignAndDigits(t: string) returns (sign: string, digits: string, rest: string)
    requires t != [] ==> !IsSpace(t[0])
    ensures NumberParts([], sign, digits, rest) && t == sign + (digits + rest)
  {
    sign := if t != [] && (t[0] == '-' || t[0] == '+') then [t[0]] else [];
    var number := t[|sign|..];
    var n := CountDigits(number);
    digits, rest := number[..n], number[n..];
    assert number == digits + rest && t == sign + number;
  }

  /** Numbers are printed without superfluous signs and zeros. */
  lemma PrintedPlainly(v: int)
    ensures var s := PrintInt(v);
      && (s[0] == '-' <==> v < 0) && s[0] != '+'
      && (s[0] == '0' ==> v == 0) && (v < 0 ==> s[1] != '0')
  {
    NoLeadingZero(if v < 0 then -v else v);
  }

  lemma {:induction false} NoLeadingZero(n: nat)
    ensures Digits(n)[0] == '0' <==> n == 0
  {
    if n >= 10 { NoLeadingZero(n / 10); }
  }

  function PrintBool(v: int): string {
    if v != 0 then "On" else "Off"
  }

  /** Only the first two characters count. */
  function ReadBool(s: string): int {
    if |s| >= 2 && s[..2] == "On" then 1 else 0
  }

  /** Any text that begins with "On" is on, and every other is off. */
  lemma ReadsSwitch(s: string)
    ensures ReadBool(s) == 1 <==> exists rest :: s == "On" + rest
    ensures ReadBool(s) == 0 || ReadBool(s) == 1
  {
    if |s| >= 2 && s[..2] == "On" { assert s == "On" + s[2..]; }
  }

  /** A switch is read back as 0 or 1. */
  lemma ReadPrintedBool(v: int)
    ensures ReadBool(PrintBool(v)) == if v != 0 then 1 else 0
  {
    assert "Off"[1] != "On"[1];
  }

  /** Printed integers and switches survive being saved and loaded. */
  lemma PrintedSurvives(key: string, v: int)
    requires ConfigText.ItemSurvives(Item(key, "")) && key != [] && key[0] != ';'
    ensures ConfigText.ItemSurvives(Item(key, PrintInt(v)))
    ensures ConfigText.ItemSurvives(Item(key, PrintBool(v)))
  {
    var d := Digits(if v < 0 then -v else v);
    assert forall c :: c in d ==> IsDigit(c);
    assert forall c :: c in PrintInt(v) ==> IsDigit(c) || c == '-';
  }

  // ---------- reading with a default ----------

  /** How a type of value is printed and read back. */
  datatype Kind = Number | Switch

  function PrintValue(kind: Kind, v: int): string {
    match kind
    case Number => PrintInt(v)
    case Switch => PrintBool(v)
  }

  function ReadValue(kind: Kind, s: string): int {
    match kind
    case Number => ReadInt(s)
    case Switch => ReadBool(s)
  }

  /** What a read returns. */
  function Answer(kind: Kind, items: seq<Item>, key: string, default: int): int {
    match Lookup(items, key)
    case Some(s) => ReadValue(kind, s)
    case None => default
  }

  /** What a read leaves behind: a missing key is given its default. */
  function AfterRead(kind: Kind, items: seq<Item>, key: string, default: int): seq<Item> {
    if Lookup(items, key).Some? then items else WriteItem(items, key, PrintValue(kind, default))
  }

  /** A value as it comes back: numbers exactly, switches as 0 or 1. */
  function Normal(kind: Kind, v: int): int {
    match kind
    case Number => v
    case Switch => if v != 0 then 1 else 0
  }

  lemma ReadBack(kind: Kind, v: int)
    ensures ReadValue(kind, PrintValue(kind, v)) == Normal(kind, v)
  {
    if kind.Number? { ReadPrinted(v); } else { ReadPrintedBool(v); }
  }

  /** A typed write is what the next typed read answers, whatever default it is given. */
  lemma WriteThenRead(kind: Kind, items: seq<Item>, key: string, v: int, default: int)
    requires UniqueKeys(items)
    ensures var r := WriteItem(items, key, PrintValue(kind, v));
      Answer(kind, r, key, default) == Normal(kind, v) && AfterRead(kind, r, key, default) == r
  {
    WriteItemEffect(items, key, PrintValue(kind, v), key);
    ReadBack(kind, v);
  }

  /** Reads agree with each other: once a key has been read, every later read of it, whatever its
      default, answers the same (switches up to 0 and 1) and changes nothing; no other key and no
      key's position is affected by the first read. */
  lemma ReadsAreSticky(kind: Kind, items: seq<Item>, key: string, d1: int, d2: int, other: string)
    requires UniqueKeys(items)
    ensures var r := AfterRead(kind, items, key, d1);
      && Answer(kind, r, key, d2) == Normal(kind, Answer(kind, items, key, d1))
      && AfterRead(kind, r, key, d2) == r
      && UniqueKeys(r)
      && (other != key ==> Lookup(r, other) == Lookup(items, other))
      && Keys(items) <= Keys(r)
  {
    if Lookup(items, key).None? {
      WriteThenRead(kind, items, key, d1, d2);
      WriteItemEffect(items, key, PrintValue(kind, d1), other);
    }
  }

  // ---------- strings ----------

  /** What a string read returns. */
  function AnswerString(items: seq<Item>, key: string, default: string): string {
    match Lookup(items, key)
    case Some(s) => s
    case None => default
  }

  function AfterReadString(items: seq<Item>, key: string, default: string): seq<Item> {
    if Lookup(items, key).Some? then items else WriteItem(items, key, default)
  }

  /** Strings come back as written, and reads agree with each other whatever their defaults. */
  lemma StringsAreSticky(items: seq<Item>, key: string, d1: string, d2: string, other: string)
    requires UniqueKeys(items)
    ensures var r := AfterReadString(items, key, d1);
      && AnswerString(r, key, d2) == AnswerString(items, key, d1)
      && AfterReadString(r, key, d2) == r
      && UniqueKeys(r)
      && (other != key ==> Lookup(r, other) == Lookup(items, other))
      && Keys(items) <= Keys(r)
  {
    WriteItemEffect(items, key, d1, other);
  }
}
