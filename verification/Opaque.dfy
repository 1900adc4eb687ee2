/**
 Opaque ingestion: a file cut into chunks, each chunk a text row of a labelled
 header and base64, delivered in batches.
 */
module Opaque {
  import opened Prelude
  import opened Rows
  import opened RowGroups
  import opened Base64

  const CHUNK_BYTES := 262144

  /** What the plan recorded about the file, and what every row of it carries. */
  datatype Input = Input(bytes: nat, sha: string, mediaType: string, license: string, source: string)

  /** The file digest and the row digest, neither of which is modelled. */
  datatype Digests = Digests(file: seq<Byte> -> string, text: string -> string)

  // ----- The text of a row -----

  function Decimal(n: nat): string { if n < 10 then [Digit(n)] else Decimal(n / 10) + [Digit(n % 10)] }

  function Digit(n: nat): char
    requires n < 10
  {
    ('0' as nat + n) as char
  }

  function DecimalValue(s: string): nat {
    if s == "" || s[|s| - 1] < '0' then 0 else DecimalValue(s[..|s| - 1]) * 10 + (s[|s| - 1] as nat - '0' as nat)
  }

  /** Labels are read back as their numbers. */
  lemma {:induction false} DecimalBack(n: nat)
    ensures DecimalValue(Decimal(n)) == n
  {
    if n < 10 {
      assert [Digit(n)][..0] == "";
    } else {
      DecimalBack(n / 10);
      var s := Decimal(n);
      assert s[..|s| - 1] == Decimal(n / 10);
    }
  }

  const VERSION := "WALDO_OPAQUE_BINARY_V1"
  const MEDIA := "media_type: "
  const ENCODING := "encoding: base64"
  const CHUNK := "chunk: "

  function First(): string { VERSION + ("\n" + MEDIA) }

  function Second(): string { "\n" + (ENCODING + ("\n" + CHUNK)) }

  function HeaderLines(mediaType: string, chunk: nat, chunks: nat): string {
    First() + mediaType + Second() + (Decimal(chunk) + "/" + Decimal(chunks))
  }

  function RowText(mediaType: string, chunk: nat, chunks: nat, data: seq<Byte>): string {
    HeaderLines(mediaType, chunk, chunks) + ("\n\n" + Encode(data))
  }

  /** A reader takes what follows the first blank line. */
  function BodyOf(text: string): Option<string> {
    if |text| < 2 then None
    else if text[0] == '\n' && text[1] == '\n' then Some(text[2..])
    else BodyOf(text[1..])
  }

  predicate HasBlank(s: string) { |s| >= 2 && ((s[0] == '\n' && s[1] == '\n') || HasBlank(s[1..])) }

  lemma {:induction false} BlankConcat(a: string, b: string)
    ensures HasBlank(a + b) <==>
            HasBlank(a) || HasBlank(b) || (a != "" && b != "" && a[|a| - 1] == '\n' && b[0] == '\n')
  {
    if a == "" {
      assert a + b == b;
    } else {
      assert (a + b)[1..] == a[1..] + b;
      BlankConcat(a[1..], b);
    }
  }

  lemma {:induction false} DecimalHasNoNewline(n: nat)
    ensures Decimal(n) != "" && forall i :: 0 <= i < |Decimal(n)| ==> Decimal(n)[i] != '\n'
  {
    if n >= 10 { DecimalHasNoNewline(n / 10); }
  }

  lemma {:induction false} NoNewlineNoBlank(s: string)
    requires forall i :: 0 <= i < |s| ==> s[i] != '\n'
    ensures !HasBlank(s)
  {
    if |s| >= 2 { NoNewlineNoBlank(s[1..]); }
  }

  lemma LabelHasNoNewline(chunk: nat, chunks: nat)
    ensures var numbers := Decimal(chunk) + "/" + Decimal(chunks);
            numbers != "" && numbers[0] != '\n' && numbers[|numbers| - 1] != '\n' && !HasBlank(numbers)
  {
    var numbers := Decimal(chunk) + "/" + Decimal(chunks);
    DecimalHasNoNewline(chunk);
    DecimalHasNoNewline(chunks);
    NoNewlineNoBlank(numbers);
  }

  lemma VersionHasNoBlank()
    ensures !HasBlank(VERSION)
  {
    hide HasBlank;
    NoNewlineNoBlank(VERSION);
  }

  lemma LabelsHaveNoBlank()
    ensures !HasBlank(MEDIA) && !HasBlank(ENCODING) && !HasBlank(CHUNK)
  {
    hide HasBlank;
    NoNewlineNoBlank(MEDIA);
    NoNewlineNoBlank(ENCODING);
    NoNewlineNoBlank(CHUNK);
  }

  lemma PartsHaveNoBlank()
    ensures First() != "" && Second() != "" && !HasBlank(First()) && !HasBlank(Second())
    ensures First()[|First()| - 1] != '\n' && Second()[|Second()| - 1] != '\n' && Second()[0] == '\n'
  {
    VersionHasNoBlank();
    LabelsHaveNoBlank();
    SingleNewline();
    hide HasBlank;
    BlankConcat("\n", MEDIA);
    BlankConcat(VERSION, "\n" + MEDIA);
    BlankConcat("\n", CHUNK);
    BlankConcat(ENCODING, "\n" + CHUNK);
    BlankConcat("\n", ENCODING + ("\n" + CHUNK));
  }

  /** The header has a blank line of its own exactly when the media type and its line end do. */
  lemma HeaderBlank(mediaType: string, chunk: nat, chunks: nat)
    ensures HasBlank(HeaderLines(mediaType, chunk, chunks) + "\n") <==> HasBlank(mediaType + "\n")
  {
    var numbers := Decimal(chunk) + "/" + Decimal(chunks);
    LabelHasNoNewline(chunk, chunks);
    PartsHaveNoBlank();
    hide Decimal, HasBlank, First, Second;
    var lines := HeaderLines(mediaType, chunk, chunks);
    BlankConcat(First(), mediaType);
    BlankConcat(First() + mediaType, Second());
    BlankConcat(First() + mediaType + Second(), numbers);
    BlankConcat(lines, "\n");
    BlankConcat(mediaType, "\n");
    SingleNewline();
  }

  lemma SingleNewline()
    ensures !HasBlank("\n")
  {
  }

  lemma {:induction false} SkipNoBlank(head: string, rest: string)
    requires rest != "" && !HasBlank(head + [rest[0]])
    ensures BodyOf(head + rest) == BodyOf(rest)
  {
    if head == "" {
      assert head + rest == rest;
    } else {
      var all := head + rest;
      assert (head + [rest[0]])[1..] == head[1..] + [rest[0]];
      assert all[1..] == head[1..] + rest;
      assert all[1] == (head + [rest[0]])[1];
      SkipNoBlank(head[1..], rest);
    }
  }

  lemma {:induction false} StopAtBlank(head: string, rest: string)
    requires HasBlank(head)
    ensures BodyOf(head + rest).Some? && |BodyOf(head + rest).value| >= |rest|
  {
    var all := head + rest;
    assert all[1..] == head[1..] + rest;
    if !(head[0] == '\n' && head[1] == '\n') { StopAtBlank(head[1..], rest); }
  }

  /** The body of a row is found exactly when the media type brings no blank line; without any newline it never does. */
  lemma BodyFoundIff(mediaType: string, chunk: nat, chunks: nat, data: seq<Byte>)
    ensures BodyOf(RowText(mediaType, chunk, chunks, data)) == Some(Encode(data)) <==> !HasBlank(mediaType + "\n")
  {
    var lines, body := HeaderLines(mediaType, chunk, chunks), Encode(data);
    HeaderBlank(mediaType, chunk, chunks);
    if HasBlank(mediaType + "\n") {
      assert RowText(mediaType, chunk, chunks, data) == (lines + "\n") + ("\n" + body);
      StopAtBlank(lines + "\n", "\n" + body);
    } else {
      var rest := "\n\n" + body;
      assert [rest[0]] == "\n";
      SkipNoBlank(lines, rest);
      assert rest[2..] == body;
    }
  }

  /** A media type without a newline is safe. */
  lemma PlainMediaType(mediaType: string)
    requires forall i :: 0 <= i < |mediaType| ==> mediaType[i] != '\n'
    ensures !HasBlank(mediaType + "\n")
  {
    NoNewlineNoBlank(mediaType);
    SingleNewline();
    BlankConcat(mediaType, "\n");
  }

  // ----- The rows of a file -----

  function Upto(file: seq<Byte>, i: nat): nat { if i * CHUNK_BYTES < |file| then i * CHUNK_BYTES else |file| }

  function ChunkAt(file: seq<Byte>, i: nat): seq<Byte> { file[Upto(file, i)..Upto(file, i + 1)] }

  /** ceil(bytes / chunk) */
  function Chunks(bytes: nat): nat { (bytes + CHUNK_BYTES - 1) / CHUNK_BYTES }

  function RowAt(input: Input, digests: Digests, file: seq<Byte>, i: nat): Row {
    var text := RowText(input.mediaType, i + 1, Chunks(input.bytes), ChunkAt(file, i));
    Row(digests.text(text), input.license, Some(input.source), text, NoRedactions)
  }

  function RowsTo(input: Input, digests: Digests, file: seq<Byte>, n: nat): seq<Row> {
    if n == 0 then [] else RowsTo(input, digests, file, n - 1) + [RowAt(input, digests, file, n - 1)]
  }

  /** Reading a list of rows back. */
  function DecodeRows(rows: seq<Row>): Option<seq<Byte>> {
    if rows == [] then Some([])
    else
      var front, body := DecodeRows(rows[..|rows| - 1]), BodyOf(rows[|rows| - 1].text);
      if front.None? || body.None? || Decode(body.value).None? then None
      else Some(front.value + Decode(body.value).value)
  }

  lemma {:induction false} DecodeRowsTo(input: Input, digests: Digests, file: seq<Byte>, n: nat)
    requires !HasBlank(input.mediaType + "\n")
    ensures DecodeRows(RowsTo(input, digests, file, n)) == Some(file[..Upto(file, n)])
  {
    hide BodyOf, Decode, Encode, RowText, HasBlank;
    if n > 0 {
      DecodeRowsTo(input, digests, file, n - 1);
      var rows, last := RowsTo(input, digests, file, n), RowAt(input, digests, file, n - 1);
      assert rows[..|rows| - 1] == RowsTo(input, digests, file, n - 1) && rows[|rows| - 1] == last;
      BodyFoundIff(input.mediaType, n, Chunks(input.bytes), ChunkAt(file, n - 1));
      Base64.RoundTrip(ChunkAt(file, n - 1));
      assert file[..Upto(file, n - 1)] + ChunkAt(file, n - 1) == file[..Upto(file, n)];
    } else {
      assert file[..0] == [];
    }
  }

  lemma ChunksCover(file: seq<Byte>)
    ensures Upto(file, Chunks(|file|)) == |file|
    ensures Chunks(|file|) > 0 ==> Upto(file, Chunks(|file|) - 1) < |file|
  {
  }

  /** A chunk that is due has bytes left to read, in an unchanged file. */
  lemma StillChunks(file: seq<Byte>, i: nat)
    ensures i < Chunks(|file|) ==> Upto(file, i) < |file|
  {
  }

  /** Lossless: the rows of an unchanged file, in order, decode to the file. */
  lemma Lossless(input: Input, digests: Digests, file: seq<Byte>)
    requires |file| == input.bytes && !HasBlank(input.mediaType + "\n")
    ensures DecodeRows(RowsTo(input, digests, file, Chunks(input.bytes))) == Some(file)
  {
    DecodeRowsTo(input, digests, file, Chunks(input.bytes));
    ChunksCover(file);
    assert file[..|file|] == file;
  }

  /** The rows are labelled 1 to ceil(size / chunk), and no chunk of an unchanged file is empty. */
  lemma {:induction false} Labels(input: Input, digests: Digests, file: seq<Byte>, n: nat, i: nat)
    requires i < n
    ensures |RowsTo(input, digests, file, n)| == n
    ensures RowsTo(input, digests, file, n)[i] == RowAt(input, digests, file, i)
  {
    if n > 1 && i < n - 1 {
      Labels(input, digests, file, n - 1, i);
    } else if n > 1 {
      Labels(input, digests, file, n - 1, 0);
    }
  }

  lemma ChunkNonEmpty(file: seq<Byte>, i: nat)
    requires i < Chunks(|file|)
    ensures ChunkAt(file, i) != [] && |ChunkAt(file, i)| <= CHUNK_BYTES
  {
  }

  lemma RowTextNonEmpty(mediaType: string, chunk: nat, chunks: nat, data: seq<Byte>)
    ensures RowText(mediaType, chunk, chunks, data) != ""
  {
  }

  // ----- The loop -----

  /** Rows in batches: the same cut as for row groups, since no row text is empty. */
  class Batcher {
    const maximum: int
    var delivered: seq<seq<Row>>
    var batch: seq<Row>
    var logicalBytes: int
    /** Whether the consumer has refused a batch. */
    ghost var refused: bool

    constructor (maximum: int)
      ensures this.maximum == maximum && Holds([]) && !refused
    {
      this.maximum, delivered, batch, logicalBytes, refused := maximum, [], [], 0, false;
    }

    ghost predicate Holds(rows: seq<Row>)
      reads this
    {
      && Grouping(delivered, batch) == GroupRows(maximum, rows) && logicalBytes == Bytes(batch)
      && (batch != [] ==> logicalBytes > 0)
    }

    /** The closure flush; the consumer may refuse. */
    method Flush() returns (ok: bool)
      modifies this
      ensures !ok ==> refused
      ensures ok ==> refused == old(refused)
      ensures ok ==> batch == [] && logicalBytes == (if old(batch) == [] then old(logicalBytes) else 0)
      ensures ok ==> delivered == if old(batch) == [] then old(delivered) else old(delivered) + [old(batch)]
      ensures old(batch) == [] ==> ok
    {
      if batch == [] {
        return true;
      }
      var refuses: bool := *;
      if refuses {
        refused := true;
        return false;
      }
      delivered, batch, logicalBytes := delivered + [batch], [], 0;
      ok := true;
    }

    method Add(row: Row, ghost rows: seq<Row>) returns (ok: bool)
      requires Holds(rows) && row.text != ""
      modifies this
      ensures ok ==> Holds(rows + [row]) && refused == old(refused)
      ensures !ok ==> refused
    {
      hide GroupRows;
      GroupRowsAppend(maximum, rows, row);
      if batch != [] && logicalBytes + |row.text| > maximum {
        ok := Flush();
        if !ok {
          return;
        }
      }
      BytesAppend(batch, row);
      batch, logicalBytes := batch + [row], logicalBytes + |row.text|;
      ok := true;
      if logicalBytes >= maximum {
        ok := Flush();
      }
    }
  }

  /** streamOpaqueInput: the file is read chunk by chunk and compared with the plan only at the end. */
  method StreamOpaqueInput(input: Input, digests: Digests, file: seq<Byte>, maximum: int)
    returns (ok: bool, batches: seq<seq<Row>>, ghost refused: bool)
    ensures ok ==> |file| == input.bytes && digests.file(file) == input.sha
    ensures !refused ==> (ok <==> |file| == input.bytes && digests.file(file) == input.sha)
    ensures ok ==> batches == AllGroups(GroupRows(maximum, RowsTo(input, digests, file, Chunks(input.bytes))))
  {
    hide GroupRows, RowText, HasBlank, Bytes;
    var batcher := new Batcher(maximum);
    var chunks := Chunks(input.bytes);
    var readBytes := 0;
    var hashed: seq<Byte> := [];
    ok, batches, refused := true, [], false;
    ChunksCover(file);
    for chunk := 0 to chunks
      invariant batcher.maximum == maximum && fresh(batcher) && !batcher.refused
      invariant batcher.Holds(RowsTo(input, digests, file, chunk))
      invariant readBytes == Upto(file, chunk) && hashed == file[..readBytes]
    {
      if readBytes >= |file| {
        StillChunks(file, chunk);
        return false, batcher.delivered, false;
      }
      var data := ChunkAt(file, chunk);
      hashed := hashed + data;
      readBytes := readBytes + |data|;
      var text := RowText(input.mediaType, chunk + 1, chunks, data);
      var row := Row(digests.text(text), input.license, Some(input.source), text, NoRedactions);
      RowTextNonEmpty(input.mediaType, chunk + 1, chunks, data);
      ok := batcher.Add(row, RowsTo(input, digests, file, chunk));
      if !ok {
        return ok, batcher.delivered, true;
      }
    }
    ok := batcher.Flush();
    batches, refused := batcher.delivered, batcher.refused;
    assert file[..|file|] == file;
    if readBytes != input.bytes || |file| != readBytes || digests.file(hashed) != input.sha {
      return false, batches, refused;
    }
  }

  /** From the file to the batches and back, with every batch within the limit or a single row. */
  lemma BatchesLossless(input: Input, digests: Digests, file: seq<Byte>, maximum: int, batches: seq<seq<Row>>)
    requires |file| == input.bytes && !HasBlank(input.mediaType + "\n")
    requires batches == AllGroups(GroupRows(maximum, RowsTo(input, digests, file, Chunks(input.bytes))))
    ensures DecodeRows(Flatten(batches)) == Some(file)
    ensures AllWithin(maximum, batches)
  {
    var rows := RowsTo(input, digests, file, Chunks(input.bytes));
    GroupsKeepRows(maximum, rows);
    Lossless(input, digests, file);
    forall i: nat | i < |rows| ensures rows[i].text != "" { TextNonEmpty(input, digests, file, Chunks(input.bytes), i); }
    GroupsAreTight(maximum, rows);
  }

  lemma {:induction false} TextNonEmpty(input: Input, digests: Digests, file: seq<Byte>, n: nat, i: nat)
    requires i < |RowsTo(input, digests, file, n)|
    ensures RowsTo(input, digests, file, n)[i].text != ""
  {
    if i < |RowsTo(input, digests, file, n - 1)| { TextNonEmpty(input, digests, file, n - 1, i); }
  }
}
