/** Hexadecimal text: the lower-case writer, and which digests are written that way. */
module Hex {
  import opened Prelude
  import opened Pins

  /** A byte is a character below 256. */
  predicate Bytes(b: string) { forall c :: c in b ==> c < 256 as char }

  function Digit(n: int): char
    requires 0 <= n < 16
  {
    "0123456789abcdef"[n]
  }

  lemma BytesTail(b: string)
    requires Bytes(b) && b != ""
    ensures b[0] < 256 as char && Bytes(b[1..])
  {
    assert b[0] in b && forall c :: c in b[1..] ==> c in b;
  }

  function Write(b: string): string
    requires Bytes(b)
  {
    if b == "" then ""
    else
      BytesTail(b);
      [Digit(b[0] as int / 16), Digit(b[0] as int % 16)] + Write(b[1..])
  }

  function Value(c: char): int
    requires LowerHex(c)
  {
    if c <= '9' then c as int - '0' as int else c as int - 'a' as int + 10
  }

  lemma DigitValue(n: int)
    requires 0 <= n < 16
    ensures LowerHex(Digit(n)) && Value(Digit(n)) == n
  {
  }

  lemma ValueDigit(c: char)
    requires LowerHex(c)
    ensures 0 <= Value(c) < 16 && Digit(Value(c)) == c
  {
  }

  lemma {:induction false} WriteIsLower(b: string)
    requires Bytes(b)
    ensures |Write(b)| == 2 * |b| && forall c :: c in Write(b) ==> LowerHex(c)
  {
    if b != "" {
      BytesTail(b);
      WriteIsLower(b[1..]);
      DigitValue(b[0] as int / 16);
      DigitValue(b[0] as int % 16);
    }
  }

  /** Every lower-case text of even length writes some bytes. */
  lemma {:induction false} LowerIsWritten(s: string) returns (b: string)
    requires |s| % 2 == 0 && forall c :: c in s ==> LowerHex(c)
    ensures Bytes(b) && Write(b) == s
  {
    if s == "" {
      b := "";
    } else {
      assert s[0] in s && s[1] in s;
      ValueDigit(s[0]);
      ValueDigit(s[1]);
      var rest := LowerIsWritten(s[2..]);
      var n := Value(s[0]) * 16 + Value(s[1]);
      b := [n as char] + rest;
      assert b[1..] == rest && n / 16 == Value(s[0]) && n % 16 == Value(s[1]);
      assert s == [s[0], s[1]] + s[2..];
    }
  }

  /** A valid digest is the lower-case writing of 32 bytes, and nothing else is. */
  lemma ValidShaIsWritten(s: string)
    ensures ValidSha(s) <==> exists b :: Bytes(b) && |b| == 32 && s == Write(b)
  {
    if ValidSha(s) {
      var b := LowerIsWritten(s);
      WriteIsLower(b);
    }
    forall b | Bytes(b) && |b| == 32 && s == Write(b) ensures ValidSha(s) { WriteIsLower(b); }
  }
}
