/**
 The canonical JSON string printer, and a reader for the string production of
 section 7 of RFC 8259.  Bytes are characters below 256.
 */
module CanonString {
  import opened Prelude

  type Bytes = s: string | forall c :: c in s ==> c < 256 as char

  const QUOTE := '"'
  const BACKSLASH := '\\'
  const HEX_DIGITS := "0123456789abcdef"

  /** The short escapes that section 3.2.2.2 of RFC 8785 prescribes for control bytes. */
  function ShortEscape(c: char): Option<char> {
    if c == 8 as char then Some('b')
    else if c == 9 as char then Some('t')
    else if c == 10 as char then Some('n')
    else if c == 12 as char then Some('f')
    else if c == 13 as char then Some('r')
    else None
  }

  /** The text of one byte between the quotes. */
  function Escape(c: char): string
    requires c < 256 as char
  {
    if c == QUOTE || c == BACKSLASH then [BACKSLASH, c]
    else if c >= 32 as char then [c]
    else if ShortEscape(c).Some? then [BACKSLASH, ShortEscape(c).value]
    else [BACKSLASH, 'u', '0', '0', HEX_DIGITS[c as int / 16], HEX_DIGITS[c as int % 16]]
  }

  function Body(s: Bytes): string {
    if s == [] then [] else Body(s[..|s| - 1]) + Escape(s[|s| - 1])
  }

  function Encode(s: Bytes): string { [QUOTE] + Body(s) + [QUOTE] }

  /** The switch over one byte. */
  method AppendByte(dst: string, c: char) returns (r: string)
    requires c < 256 as char
    ensures r == dst + Escape(c)
  {
    if c == '"' {
      r := dst + [BACKSLASH, '"'];
    } else if c == '\\' {
      r := dst + [BACKSLASH, '\\'];
    } else if c >= 32 as char {
      r := dst + [c];
    } else if c == 8 as char {
      r := dst + [BACKSLASH, 'b'];
    } else if c == 9 as char {
      r := dst + [BACKSLASH, 't'];
    } else if c == 10 as char {
      r := dst + [BACKSLASH, 'n'];
    } else if c == 12 as char {
      r := dst + [BACKSLASH, 'f'];
    } else if c == 13 as char {
      r := dst + [BACKSLASH, 'r'];
    } else {
      r := dst + [BACKSLASH, 'u', '0', '0', HEX_DIGITS[c as int / 16], HEX_DIGITS[c as int % 16]];
    }
  }

  /** AppendString: one pass over the bytes, appending to the destination. */
  method AppendString(dst: string, s: Bytes) returns (r: string)
    ensures r == dst + Encode(s)
  {
    hide Escape;
    r := dst + [QUOTE];
    for i := 0 to |s|
      invariant r == dst + [QUOTE] + Body(s[..i])
    {
      assert s[..i + 1][..i] == s[..i];
      r := AppendByte(r, s[i]);
    }
    assert s[..|s|] == s;
    r := r + [QUOTE];
  }

  // ----- The reader -----

  function HexValue(c: char): Option<nat> {
    if '0' <= c <= '9' then Some(c as nat - '0' as nat)
    else if 'a' <= c <= 'f' then Some(c as nat - 'a' as nat + 10)
    else if 'A' <= c <= 'F' then Some(c as nat - 'A' as nat + 10)
    else None
  }

  /** The character behind a backslash, for the one-letter escapes of RFC 8259. */
  function Unescape(c: char): Option<char> {
    if c == QUOTE || c == BACKSLASH || c == '/' then Some(c)
    else if c == 'b' then Some(8 as char)
    else if c == 't' then Some(9 as char)
    else if c == 'n' then Some(10 as char)
    else if c == 'f' then Some(12 as char)
    else if c == 'r' then Some(13 as char)
    else None
  }

  /** Four hexadecimal digits; characters beyond ASCII, which the printer never escapes, are outside this reader. */
  function HexFour(t: string): Option<char> {
    if |t| < 4 || HexValue(t[0]).None? || HexValue(t[1]).None? || HexValue(t[2]).None? || HexValue(t[3]).None? then None
    else
      var v := HexValue(t[0]).value * 4096 + HexValue(t[1]).value * 256 + HexValue(t[2]).value * 16 + HexValue(t[3]).value;
      if v < 128 then Some(v as char) else None
  }

  datatype Parsed = Parsed(value: string, rest: string)

  /** One character of the string and how much of the text it takes. */
  function ReadOne(t: string): Option<(char, nat)> {
    if t == [] || t[0] == QUOTE || t[0] < 32 as char then None
    else if t[0] != BACKSLASH then Some((t[0], 1))
    else if |t| < 2 then None
    else if t[1] == 'u' then
      (if HexFour(t[2..]).Some? then Some((HexFour(t[2..]).value, 6)) else None)
    else if Unescape(t[1]).Some? then Some((Unescape(t[1]).value, 2))
    else None
  }

  lemma ReadOneSize(t: string)
    ensures ReadOne(t).Some? ==> 0 < ReadOne(t).value.1 <= |t|
  {
  }

  /** The characters up to the closing quote. */
  function ReadBody(t: string): Option<Parsed>
    decreases |t|
  {
    if t != [] && t[0] == QUOTE then Some(Parsed([], t[1..]))
    else
      ReadOneSize(t);
      var one := ReadOne(t);
      if one.None? then None
      else
        var tail := ReadBody(t[one.value.1..]);
        if tail.None? then None else Some(Parsed([one.value.0] + tail.value.value, tail.value.rest))
  }

  function Read(t: string): Option<Parsed> { if t != [] && t[0] == QUOTE then ReadBody(t[1..]) else None }

  // ----- Round trip -----

  lemma HexDigitValue(n: nat)
    requires n < 16
    ensures HexValue(HEX_DIGITS[n]) == Some(n) && HEX_DIGITS[n] >= 32 as char
  {
    if n < 10 { assert HEX_DIGITS[n] == ('0' as int + n) as char; } else { assert HEX_DIGITS[n] == ('a' as int + n - 10) as char; }
  }

  /** Each escape is read back as its byte, and no further. */
  lemma ReadEscape(c: char, t: string)
    requires c < 256 as char
    ensures ReadOne(Escape(c) + t) == Some((c, |Escape(c)|)) && (Escape(c) + t)[0] != QUOTE
  {
    var all := Escape(c) + t;
    if |Escape(c)| == 6 {
      HexDigitValue(c as int / 16);
      HexDigitValue(c as int % 16);
      HexDigitValue(0);
      assert all[2..][0] == '0' && all[2..][1] == '0';
      assert all[2..][2] == HEX_DIGITS[c as int / 16] && all[2..][3] == HEX_DIGITS[c as int % 16];
      assert HexFour(all[2..]) == Some(c);
    }
  }

  lemma {:induction false} BodyFront(c: char, s: Bytes)
    requires c < 256 as char
    ensures Body([c] + s) == Escape(c) + Body(s)
  {
    hide Escape;
    var all := [c] + s;
    if s == [] {
      assert all[..0] == [];
    } else {
      assert all[..|all| - 1] == [c] + s[..|s| - 1];
      BodyFront(c, s[..|s| - 1]);
    }
  }

  lemma {:induction false} ReadBodyBack(s: Bytes, t: string)
    ensures ReadBody(Body(s) + [QUOTE] + t) == Some(Parsed(s, t))
  {
    hide Escape, ReadOne;
    if s == [] {
      assert Body(s) + [QUOTE] + t == [QUOTE] + t;
    } else {
      var c, tail: Bytes := s[0], s[1..];
      assert s == [c] + tail;
      BodyFront(c, tail);
      var rest := Body(tail) + [QUOTE] + t;
      assert Body(s) + [QUOTE] + t == Escape(c) + rest;
      ReadEscape(c, rest);
      ReadBodyBack(tail, t);
      assert (Escape(c) + rest)[|Escape(c)|..] == rest;
    }
  }

  /** Reading what was printed gives back the string, and leaves exactly what follows it. */
  lemma RoundTrip(s: Bytes, t: string)
    ensures Read(Encode(s) + t) == Some(Parsed(s, t))
  {
    hide Escape, ReadOne, ReadBody;
    assert (Encode(s) + t)[1..] == Body(s) + [QUOTE] + t;
    ReadBodyBack(s, t);
  }

  /** So no two strings print alike, even with something behind them. */
  lemma EncodingSelfDelimiting(s: Bytes, t: string, s': Bytes, t': string)
    requires Encode(s) + t == Encode(s') + t'
    ensures s == s' && t == t'
  {
    RoundTrip(s, t);
    RoundTrip(s', t');
  }

  lemma EscapeVisible(c: char, i: nat)
    requires c < 256 as char && i < |Escape(c)|
    ensures 32 as char <= Escape(c)[i] < 256 as char
  {
    HexDigitValue(c as int / 16);
    HexDigitValue(c as int % 16);
  }

  /** The printed form contains no raw control byte. */
  lemma {:induction false} NoControlBytes(s: Bytes, i: nat)
    requires i < |Encode(s)|
    ensures 32 as char <= Encode(s)[i] < 256 as char
  {
    if 0 < i < |Encode(s)| - 1 { BodyVisible(s, i - 1); }
  }

  lemma {:induction false} BodyVisible(s: Bytes, i: nat)
    requires i < |Body(s)|
    ensures 32 as char <= Body(s)[i] < 256 as char
  {
    var front := s[..|s| - 1];
    if i < |Body(front)| {
      BodyVisible(front, i);
    } else {
      EscapeVisible(s[|s| - 1], i - |Body(front)|);
    }
  }

  lemma {:induction false} PlainBody(s: Bytes)
    requires forall i :: 0 <= i < |s| ==> s[i] >= 32 as char && s[i] != QUOTE && s[i] != BACKSLASH
    ensures Body(s) == s
  {
    if s != [] {
      PlainBody(s[..|s| - 1]);
      assert s == s[..|s| - 1] + [s[|s| - 1]];
    }
  }

  /** Bytes that are not control bytes, quotes or backslashes stay as they are: the printer adds nothing else. */
  lemma PlainBytesLiteral(s: Bytes)
    requires forall i :: 0 <= i < |s| ==> s[i] >= 32 as char && s[i] != QUOTE && s[i] != BACKSLASH
    ensures Encode(s) == [QUOTE] + s + [QUOTE]
  {
    PlainBody(s);
  }

  // ----- The shortest text -----

  /** No other way to write the byte is shorter. */
  lemma EscapeIsShortest(c: char, t: string)
    requires c < 256 as char && ReadOne(t).Some? && ReadOne(t).value.0 == c
    ensures |Escape(c)| <= ReadOne(t).value.1
  {
  }

  /** Among all texts that read as s, whatever follows, none is shorter than the printed one. */
  lemma {:induction false} BodyIsShortest(s: Bytes, t: string)
    requires ReadBody(t).Some? && ReadBody(t).value.value == s
    ensures |Body(s)| + 1 + |ReadBody(t).value.rest| <= |t|
    decreases |s|
  {
    hide Escape, ReadOne;
    ReadOneSize(t);
    if t[0] != QUOTE {
      var one := ReadOne(t).value;
      EscapeIsShortest(s[0], t);
      BodyIsShortest(s[1..], t[one.1..]);
      BodyFront(s[0], s[1..]);
      assert s == [s[0]] + s[1..];
    }
  }

  lemma ShortestText(s: Bytes, t: string)
    requires Read(t).Some? && Read(t).value.value == s
    ensures |Encode(s)| + |Read(t).value.rest| <= |t|
  {
    hide Escape, ReadBody;
    BodyIsShortest(s, t[1..]);
  }

  /** The digits of a six-character escape, of which only the last two can be letters. */
  predicate LowerCase(t: string)
    requires |t| >= 6
  {
    forall i :: 2 <= i < 6 ==> !('A' <= t[i] <= 'F')
  }

  lemma LowerCaseDigit(a: char, n: nat)
    requires n < 16 && HexValue(a) == Some(n) && !('A' <= a <= 'F')
    ensures a == HEX_DIGITS[n]
  {
    if n < 10 { assert HEX_DIGITS[n] == ('0' as int + n) as char; } else { assert HEX_DIGITS[n] == ('a' as int + n - 10) as char; }
  }

  /** The printed form is the only one of its length with lower-case digits. */
  lemma OnlyEscape(c: char, t: string)
    requires c < 256 as char && ReadOne(t) == Some((c, |Escape(c)|)) && (|Escape(c)| == 6 ==> LowerCase(t))
    ensures |Escape(c)| <= |t| && t[..|Escape(c)|] == Escape(c)
  {
    ReadOneSize(t);
    if |Escape(c)| == 6 {
      var u := t[2..];
      FourDigits(c, u);
      LowerCaseDigit(u[0], 0);
      LowerCaseDigit(u[1], 0);
      LowerCaseDigit(u[2], c as int / 16);
      LowerCaseDigit(u[3], c as int % 16);
    }
  }

  lemma FourDigits(c: char, u: string)
    requires HexFour(u) == Some(c)
    ensures HexValue(u[0]) == Some(0) && HexValue(u[1]) == Some(0)
    ensures c < 128 as char && HexValue(u[2]) == Some(c as int / 16) && HexValue(u[3]) == Some(c as int % 16)
  {
    var a, b, d, e := HexValue(u[0]).value, HexValue(u[1]).value, HexValue(u[2]).value, HexValue(u[3]).value;
    assert a < 16 && b < 16 && d < 16 && e < 16;
  }
}
