/** Notions shared by the text formats. */
module Text {
  datatype Option<+T> = None | Some(value: T)

  /** Reading either gives a value or would run outside its buffers. */
  datatype Result<+T> = Ok(value: T) | Fault

  /** The C library's isspace. */
  predicate IsSpace(c: char) {
    c == ' ' || c == '\t' || c == '\n' || c == '\U{000B}' || c == '\U{000C}' || c == '\r'
  }

  predicate AllBlank(s: string) {
    forall i :: 0 <= i < |s| ==> IsSpace(s[i])
  }

  function Digit(n: nat): (c: char)
    requires n < 10
    ensures '0' <= c <= '9' && (c - '0') as nat == n
  {
    '0' + n as char
  }

  /** The size of every line buffer. */
  const LINE_SIZE: nat := 1024

  /** Decimal digits of a natural number, as printf prints them. */
  function Digits(n: nat): (s: string)
    ensures s != [] && forall i :: 0 <= i < |s| ==> '0' <= s[i] <= '9'
  {
    if n < 10 then [Digit(n)] else Digits(n / 10) + [Digit(n % 10)]
  }

  /** Text without its leading blanks. */
  function TrimLeft(s: string): (r: string)
    ensures |r| <= |s| && (r != [] ==> !IsSpace(r[0]))
    ensures forall c :: c in r ==> c in s
  {
    if s != [] && IsSpace(s[0]) then TrimLeft(s[1..]) else s
  }

  /** Blanks in front of a text are trimmed, and nothing else is. */
  lemma {:induction false} TrimBlanks(blanks: string, s: string)
    requires AllBlank(blanks) && (s != [] ==> !IsSpace(s[0]))
    ensures TrimLeft(blanks + s) == s
  {
    if blanks == [] {
      assert blanks + s == s;
    } else {
      assert (blanks + s)[1..] == blanks[1..] + s;
      TrimBlanks(blanks[1..], s);
    }
  }

  lemma {:induction false} TrimSplits(s: string)
    ensures var n := |s| - |TrimLeft(s)|;
      TrimLeft(s) == s[n..] && AllBlank(s[..n])
  {
    if s != [] && IsSpace(s[0]) {
      TrimSplits(s[1..]);
      var n := |s| - |TrimLeft(s)|;
      assert forall i :: 0 < i < n ==> s[i] == s[1..][..n - 1][i - 1];
    }
  }
}
