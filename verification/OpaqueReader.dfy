/** An independent reader of opaque rows: what each line of a row says. */
module OpaqueReader {
  import opened Prelude
  import opened Rows
  import opened Base64
  import opened Opaque

  function Lines(s: string): (lines: seq<string>)
    ensures lines != []
  {
    if s == "" then [""]
    else
      var rest := Lines(s[1..]);
      if s[0] == '\n' then [""] + rest else [[s[0]] + rest[0]] + rest[1..]
  }

  lemma {:induction false} OneLine(a: string)
    requires '\n' !in a
    ensures Lines(a) == [a]
  {
    if a != "" {
      OneLine(a[1..]);
      assert a[0] in a && [a[0]] + a[1..] == a;
    }
  }

  lemma {:induction false} FirstLine(a: string, b: string)
    requires '\n' !in a
    ensures Lines(a + "\n" + b) == [a] + Lines(b)
  {
    var s := a + "\n" + b;
    if a == "" {
      assert s == "\n" + b && s[1..] == b;
    } else {
      assert a[0] in a && s[0] == a[0] && s[1..] == a[1..] + "\n" + b;
      FirstLine(a[1..], b);
      assert [a[0]] + a[1..] == a;
    }
  }

  lemma {:induction false} DecimalDigits(n: nat)
    ensures forall c :: c in Decimal(n) ==> '0' <= c <= '9'
  {
    if n >= 10 { DecimalDigits(n / 10); }
  }

  lemma {:induction false} EncodedHasNoNewline(data: seq<Byte>)
    ensures '\n' !in Encode(data)
  {
    if |data| >= 3 { EncodedHasNoNewline(data[3..]); }
  }

  /** The two numbers of "chunk: i/n". */
  function ReadLabel(line: string): Option<(nat, nat)> {
    if |line| < 7 || line[..7] != "chunk: " then None else ReadNumbers(line[7..], 0)
  }

  function ReadNumbers(s: string, n: nat): Option<(nat, nat)>
    decreases |s| - n
  {
    if n >= |s| then None
    else if s[n] == '/' then Some((DecimalValue(s[..n]), DecimalValue(s[n + 1..])))
    else ReadNumbers(s, n + 1)
  }

  lemma {:induction false} NumbersRead(a: string, b: string, n: nat)
    requires '/' !in a && n <= |a|
    ensures ReadNumbers(a + "/" + b, n) == Some((DecimalValue(a), DecimalValue(b)))
    decreases |a| - n
  {
    var s := a + "/" + b;
    if n < |a| {
      assert s[n] == a[n];
      NumbersRead(a, b, n + 1);
    } else {
      assert s[..n] == a && s[n + 1..] == b;
    }
  }

  lemma LabelRead(i: nat, n: nat)
    ensures ReadLabel("chunk: " + (Decimal(i) + "/" + Decimal(n))) == Some((i, n))
    ensures '\n' !in "chunk: " + (Decimal(i) + "/" + Decimal(n))
  {
    var numbers := Decimal(i) + "/" + Decimal(n);
    assert ("chunk: " + numbers)[..7] == "chunk: " && ("chunk: " + numbers)[7..] == numbers;
    DecimalDigits(i);
    DecimalDigits(n);
    NumbersRead(Decimal(i), Decimal(n), 0);
    DecimalBack(i);
    DecimalBack(n);
  }

  /** The lines of a row: its version, the media type, the encoding, the label, an empty line, and the data. */
  lemma RowLines(mediaType: string, i: nat, n: nat, data: seq<Byte>)
    requires '\n' !in mediaType
    ensures Lines(RowText(mediaType, i, n, data)) ==
            ["WALDO_OPAQUE_BINARY_V1", "media_type: " + mediaType, "encoding: base64",
             "chunk: " + (Decimal(i) + "/" + Decimal(n)), "", Encode(data)]
  {
    LabelRead(i, n);
    EncodedHasNoNewline(data);
    FourLines("WALDO_OPAQUE_BINARY_V1", "media_type: " + mediaType, "encoding: base64",
              "chunk: " + (Decimal(i) + "/" + Decimal(n)), Encode(data));
    TextOfLines(mediaType, i, n, data);
  }

  lemma TextOfLines(mediaType: string, i: nat, n: nat, data: seq<Byte>)
    ensures RowText(mediaType, i, n, data) ==
            "WALDO_OPAQUE_BINARY_V1" + "\n" + ("media_type: " + mediaType + "\n" + ("encoding: base64" + "\n"
            + ("chunk: " + (Decimal(i) + "/" + Decimal(n)) + "\n" + ("" + "\n" + Encode(data)))))
  {
  }

  lemma FourLines(a: string, b: string, c: string, d: string, last: string)
    requires '\n' !in a && '\n' !in b && '\n' !in c && '\n' !in d && '\n' !in last
    ensures Lines(a + "\n" + (b + "\n" + (c + "\n" + (d + "\n" + ("" + "\n" + last))))) == [a, b, c, d, "", last]
  {
    OneLine(last);
    FirstLine("", last);
    FirstLine(d, "" + "\n" + last);
    FirstLine(c, d + "\n" + ("" + "\n" + last));
    FirstLine(b, c + "\n" + (d + "\n" + ("" + "\n" + last)));
    FirstLine(a, b + "\n" + (c + "\n" + (d + "\n" + ("" + "\n" + last))));
  }

  /** A reader of row i of a file finds its media type, the label i + 1 of the number of chunks, and the i-th 262144 bytes;
      the row carries the license and the source of the input, and the digest of its own text. */
  lemma RowReads(input: Input, digests: Digests, file: seq<Byte>, n: nat, i: nat)
    requires '\n' !in input.mediaType && i < n
    ensures |RowsTo(input, digests, file, n)| == n
    ensures var row := RowsTo(input, digests, file, n)[i]; var lines := Lines(row.text);
            && |lines| == 6 && lines[1] == "media_type: " + input.mediaType
            && ReadLabel(lines[3]) == Some((i + 1, Chunks(input.bytes)))
            && Decode(lines[5]) == Some(ChunkAt(file, i))
            && row.license == input.license && row.source == Some(input.source) && row.hash == digests.text(row.text)
  {
    Labels(input, digests, file, n, i);
    RowLines(input.mediaType, i + 1, Chunks(input.bytes), ChunkAt(file, i));
    LabelRead(i + 1, Chunks(input.bytes));
    Base64.RoundTrip(ChunkAt(file, i));
  }

  /** Every chunk but the last is a full one, and the last one holds the rest. */
  lemma FullChunks(file: seq<Byte>, i: nat)
    requires i < Chunks(|file|)
    ensures i + 1 < Chunks(|file|) ==> |ChunkAt(file, i)| == 262144
    ensures i + 1 == Chunks(|file|) ==> 262144 * i + |ChunkAt(file, i)| == |file|
    ensures ChunkAt(file, i) == file[262144 * i..262144 * i + |ChunkAt(file, i)|]
  {
  }
}
