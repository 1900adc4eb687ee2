/** The base64 encoding of section 4 of RFC 4648, with padding, and its strict decoder. */
module Base64 {
  import opened Prelude

  type Byte = x: nat | x < 256

  const PAD := '='

  function Symbol(v: nat): char
    requires v < 64
  {
    if v < 26 then ('A' as nat + v) as char
    else if v < 52 then ('a' as nat + (v - 26)) as char
    else if v < 62 then ('0' as nat + (v - 52)) as char
    else if v == 62 then '+'
    else '/'
  }

  function ValueOf(c: char): Option<nat> {
    if 'A' <= c <= 'Z' then Some(c as nat - 'A' as nat)
    else if 'a' <= c <= 'z' then Some(c as nat - 'a' as nat + 26)
    else if '0' <= c <= '9' then Some(c as nat - '0' as nat + 52)
    else if c == '+' then Some(62)
    else if c == '/' then Some(63)
    else None
  }

  lemma SymbolValue(v: nat)
    requires v < 64
    ensures ValueOf(Symbol(v)) == Some(v) && Symbol(v) != PAD && Symbol(v) > ' '
  {
  }

  function Encode(data: seq<Byte>): string {
    if |data| == 0 then ""
    else if |data| == 1 then [Symbol(data[0] / 4), Symbol(data[0] % 4 * 16), PAD, PAD]
    else if |data| == 2 then
      [Symbol(data[0] / 4), Symbol(data[0] % 4 * 16 + data[1] / 16), Symbol(data[1] % 16 * 4), PAD]
    else
      [Symbol(data[0] / 4), Symbol(data[0] % 4 * 16 + data[1] / 16), Symbol(data[1] % 16 * 4 + data[2] / 64),
       Symbol(data[2] % 64)] + Encode(data[3..])
  }

  /** The three bytes of four symbols. */
  function Group(a: nat, b: nat, c: nat, d: nat): seq<Byte>
    requires a < 64 && b < 64 && c < 64 && d < 64
  {
    [a * 4 + b / 16, b % 16 * 16 + c / 4, c % 4 * 64 + d]
  }

  /** The last four symbols, the only ones that may end in padding; unused bits must be zero. */
  function DecodeLast(text: string): Option<seq<Byte>>
    requires |text| == 4
  {
    var a, b, c, d := ValueOf(text[0]), ValueOf(text[1]), ValueOf(text[2]), ValueOf(text[3]);
    if a.None? || b.None? || a.value >= 64 || b.value >= 64 then None
    else if text[2] == PAD && text[3] == PAD then
      (if b.value % 16 == 0 then Some([a.value * 4 + b.value / 16]) else None)
    else if c.None? || c.value >= 64 then None
    else if text[3] == PAD then
      (if c.value % 4 == 0 then Some([a.value * 4 + b.value / 16, b.value % 16 * 16 + c.value / 4]) else None)
    else if d.None? || d.value >= 64 then None
    else Some(Group(a.value, b.value, c.value, d.value))
  }

  function Decode(text: string): Option<seq<Byte>> {
    if text == "" then Some([])
    else if |text| < 4 then None
    else if |text| == 4 then DecodeLast(text)
    else
      var a, b, c, d := ValueOf(text[0]), ValueOf(text[1]), ValueOf(text[2]), ValueOf(text[3]);
      if a.None? || b.None? || c.None? || d.None? || a.value >= 64 || b.value >= 64 || c.value >= 64 || d.value >= 64 then None
      else
        var rest := Decode(text[4..]);
        if rest.None? then None else Some(Group(a.value, b.value, c.value, d.value) + rest.value)
  }

  lemma GroupBack(x: Byte, y: Byte, z: Byte)
    ensures Group(x / 4, x % 4 * 16 + y / 16, y % 16 * 4 + z / 64, z % 64) == [x, y, z]
  {
  }

  lemma DecodeOne(x: Byte)
    ensures DecodeLast(Encode([x])) == Some([x])
  {
    hide Symbol, ValueOf;
    SymbolValue(x / 4);
    SymbolValue(x % 4 * 16);
  }

  lemma DecodeTwo(x: Byte, y: Byte)
    ensures DecodeLast(Encode([x, y])) == Some([x, y])
  {
    hide Symbol, ValueOf;
    SymbolValue(x / 4);
    SymbolValue(x % 4 * 16 + y / 16);
    SymbolValue(y % 16 * 4);
  }

  lemma DecodeThree(x: Byte, y: Byte, z: Byte)
    ensures |Encode([x, y, z])| == 4 && DecodeLast(Encode([x, y, z])) == Some([x, y, z])
  {
    hide Symbol, ValueOf, Group;
    SymbolValue(x / 4);
    SymbolValue(x % 4 * 16 + y / 16);
    SymbolValue(y % 16 * 4 + z / 64);
    SymbolValue(z % 64);
    GroupBack(x, y, z);
    assert [x, y, z][3..] == [];
  }

  lemma DecodeShort(data: seq<Byte>)
    requires 0 < |data| <= 3
    ensures |Encode(data)| == 4 && DecodeLast(Encode(data)) == Some(data)
  {
    hide Symbol, ValueOf, DecodeLast;
    if |data| == 1 {
      assert data == [data[0]];
      DecodeOne(data[0]);
    } else if |data| == 2 {
      assert data == [data[0], data[1]];
      DecodeTwo(data[0], data[1]);
    } else {
      assert data == [data[0], data[1], data[2]];
      DecodeThree(data[0], data[1], data[2]);
    }
  }

  /** Decoding gives back the bytes. */
  lemma {:induction false} RoundTrip(data: seq<Byte>)
    ensures Decode(Encode(data)) == Some(data)
  {
    hide Symbol, ValueOf, DecodeLast, Group;
    if |data| > 3 {
      var text, tail := Encode(data), data[3..];
      RoundTrip(tail);
      EncodeNonEmpty(tail);
      SymbolValue(data[0] / 4);
      SymbolValue(data[0] % 4 * 16 + data[1] / 16);
      SymbolValue(data[1] % 16 * 4 + data[2] / 64);
      SymbolValue(data[2] % 64);
      GroupBack(data[0], data[1], data[2]);
      assert text[4..] == Encode(tail);
      assert data == [data[0], data[1], data[2]] + tail;
    } else if data != [] {
      DecodeShort(data);
    }
  }

  lemma EncodeNonEmpty(data: seq<Byte>)
    requires data != []
    ensures |Encode(data)| >= 4
  {
  }
}
