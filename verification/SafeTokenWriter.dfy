/**
 The terminal filter for generated bytes: newline, tab and printable UTF-8 pass,
 everything else is shown as a hexadecimal escape, and a carriage return is only
 kept when a newline follows.  Bytes are held back while they may still complete.
 */
module SafeTokenWriters {
  import opened Utf8

  const CR: byte := 13
  const LF: byte := 10
  const TAB: byte := 9

  function HexDigit(n: int): byte
    requires 0 <= n < 16
  {
    if n < 10 then 48 + n else 87 + n
  }

  /** "\xhh" */
  function Escape(b: byte): seq<byte> { [92, 120, HexDigit(b / 16), HexDigit(b % 16)] }

  function EscapeAll(s: seq<byte>): seq<byte> {
    if s == [] then [] else Escape(s[0]) + EscapeAll(s[1..])
  }

  predicate Printable(b: byte) { b == LF || b == TAB || (0x20 <= b < 0x7F) }

  lemma {:induction false} EscapeAllAppend(s: seq<byte>, b: byte)
    ensures EscapeAll(s + [b]) == EscapeAll(s) + Escape(b)
  {
    if s != [] {
      assert (s + [b])[1..] == s[1..] + [b];
      EscapeAllAppend(s[1..], b);
    } else {
      assert (s + [b])[1..] == [];
    }
  }

  // ----- The reference: the whole input at once -----

  function Render(x: seq<byte>): seq<byte> {
    if x == [] then []
    else if x[0] == CR then
      if |x| > 1 && x[1] == LF then [LF] + Render(x[2..]) else Escape(CR) + Render(x[1..])
    else if x[0] < 0x80 then
      (if Printable(x[0]) then [x[0]] else Escape(x[0])) + Render(x[1..])
    else
      var n := DecodedSize(x);
      if n == 0 then Escape(x[0]) + Render(x[1..]) else x[..n] + Render(x[n..])
  }

  // ----- One turn of the loop -----

  datatype State = State(output: seq<byte>, pending: seq<byte>, carriageReturn: bool)

  /** The loop ends, or returns early because the pending bytes may still become a character. */
  predicate Blocked(s: State) {
    s.pending == [] || (!s.carriageReturn && s.pending[0] >= 0x80 && !FullRune(s.pending))
  }

  function Step(s: State): State
    requires !Blocked(s)
  {
    var first := s.pending[0];
    if s.carriageReturn then
      if first == LF then State(s.output + [LF], s.pending[1..], false)
      else State(s.output + Escape(CR), s.pending, false)
    else if first == CR then State(s.output, s.pending[1..], true)
    else if first < 0x80 then
      State(s.output + (if Printable(first) then [first] else Escape(first)), s.pending[1..], false)
    else
      var n := DecodedSize(s.pending);
      if n == 0 then State(s.output + Escape(first), s.pending[1..], false)
      else State(s.output + s.pending[..n], s.pending[n..], false)
  }

  function Measure(s: State): nat { 2 * |s.pending| + (if s.carriageReturn then 1 else 0) }

  function Drain(s: State): State
    decreases Measure(s)
  {
    if Blocked(s) then s else Drain(Step(s))
  }

  function Flushed(s: State): seq<byte> {
    s.output + (if s.carriageReturn then Escape(CR) else []) + EscapeAll(s.pending)
  }

  function Feed(s: State, data: seq<byte>): State { s.(pending := s.pending + data) }

  const Empty := State([], [], false)

  // ----- Independence of the chunking -----

  lemma StepThenFeed(s: State, data: seq<byte>)
    requires !Blocked(s)
    ensures !Blocked(Feed(s, data)) && Step(Feed(s, data)) == Feed(Step(s), data)
  {
    var p := s.pending + data;
    assert p[0] == s.pending[0];
    assert p[1..] == s.pending[1..] + data;
    if !s.carriageReturn && s.pending[0] >= 0x80 {
      DecodingIsPrefixDetermined(s.pending, data);
      var n := DecodedSize(s.pending);
      assert p[n..] == s.pending[n..] + data;
      assert p[..n] == s.pending[..n];
    }
  }

  /** Draining between two chunks makes no difference. */
  lemma {:induction false} DrainThenFeed(s: State, data: seq<byte>)
    ensures Drain(Feed(Drain(s), data)) == Drain(Feed(s, data))
    decreases Measure(s)
  {
    if !Blocked(s) {
      StepThenFeed(s, data);
      DrainThenFeed(Step(s), data);
    }
  }

  lemma {:induction false} DrainBlocks(s: State)
    ensures Blocked(Drain(s))
    decreases Measure(s)
  {
    if !Blocked(s) { DrainBlocks(Step(s)); }
  }

  // ----- Agreement with the reference -----

  /** What is still to be shown of a state. */
  function Rest(s: State): seq<byte> {
    if s.carriageReturn then Render([CR] + s.pending) else Render(s.pending)
  }

  lemma ReturnRenders(s: State)
    requires s.carriageReturn && s.pending != []
    ensures Step(s).output + Rest(Step(s)) == s.output + Rest(s)
  {
    hide Escape, DecodedSize, Printable;
    var p := s.pending;
    var x := [CR] + p;
    assert x[0] == CR && x[1] == p[0] && x[1..] == p && x[2..] == p[1..];
    if p[0] == LF {
      assert Render(x) == [LF] + Render(p[1..]);
    } else {
      assert Render(x) == Escape(CR) + Render(p);
    }
  }

  lemma StepRenders(s: State)
    requires !Blocked(s)
    ensures Step(s).output + Rest(Step(s)) == s.output + Rest(s)
  {
    hide Escape, DecodedSize, Printable;
    var p := s.pending;
    if s.carriageReturn {
      ReturnRenders(s);
    } else if p[0] == CR {
      assert [CR] + p[1..] == p;
    }
  }

  lemma {:induction false} RenderTails(p: seq<byte>)
    requires forall b :: b in p ==> Tail(b)
    ensures Render(p) == EscapeAll(p)
  {
    if p != [] {
      assert p[0] in p;
      assert p == [p[0]] + p[1..];
      RenderTails(p[1..]);
    }
  }

  lemma BlockedRenders(s: State)
    requires Blocked(s)
    ensures s.output + Rest(s) == Flushed(s)
  {
    if s.pending == [] {
      if s.carriageReturn {
        assert Render([CR]) == Escape(CR) + Render([CR][1..]);
      }
    } else {
      UndecodableIsTails(s.pending);
      forall b | b in s.pending[1..] ensures Tail(b) {
      }
      RenderTails(s.pending[1..]);
    }
  }

  lemma {:induction false} DrainRenders(s: State)
    ensures Flushed(Drain(s)) == s.output + Rest(s)
    decreases Measure(s)
  {
    if Blocked(s) { BlockedRenders(s); } else { StepRenders(s); DrainRenders(Step(s)); }
  }

  // ----- What may appear on the terminal -----

  /** Valid UTF-8 without control bytes other than newline and tab. */
  ghost predicate TerminalSafe(s: seq<byte>) {
    ValidUtf8(s) && forall b :: b in s ==> (b >= 0x20 || b == LF || b == TAB) && b != 0x7F
  }

  lemma SafeConcat(s: seq<byte>, t: seq<byte>)
    requires TerminalSafe(s) && TerminalSafe(t)
    ensures TerminalSafe(s + t)
  {
    ValidConcat(s, t);
  }

  lemma {:induction false} AsciiSafe(s: seq<byte>)
    requires forall b :: b in s ==> Printable(b)
    ensures TerminalSafe(s)
  {
    if s != [] {
      assert s == s[..1] + s[1..] && s[..1] == [s[0]] && s[0] in s;
      AsciiSafe(s[1..]);
      CharIsValid(s[..1]);
      ValidConcat(s[..1], s[1..]);
    } else {
      assert ValidUtf8([]);
    }
  }

  lemma EscapeSafe(b: byte)
    ensures TerminalSafe(Escape(b))
  {
    AsciiSafe(Escape(b));
  }

  lemma CharSafe(s: seq<byte>)
    requires Utf8Char(s) && s[0] >= 0x80
    ensures TerminalSafe(s)
  {
    CharIsValid(s);
    assert forall b :: b in s ==> b >= 0x80;
  }

  lemma {:induction false} RenderSafe(x: seq<byte>)
    ensures TerminalSafe(Render(x))
  {
    if x == [] {
      AsciiSafe([]);
    } else if x[0] == CR {
      if |x| > 1 && x[1] == LF {
        AsciiSafe([LF]);
        RenderSafe(x[2..]);
        SafeConcat([LF], Render(x[2..]));
      } else {
        EscapeSafe(CR);
        RenderSafe(x[1..]);
        SafeConcat(Escape(CR), Render(x[1..]));
      }
    } else if x[0] < 0x80 {
      var shown := if Printable(x[0]) then [x[0]] else Escape(x[0]);
      if Printable(x[0]) { AsciiSafe([x[0]]); } else { EscapeSafe(x[0]); }
      RenderSafe(x[1..]);
      SafeConcat(shown, Render(x[1..]));
    } else if DecodedSize(x) == 0 {
      EscapeSafe(x[0]);
      RenderSafe(x[1..]);
      SafeConcat(Escape(x[0]), Render(x[1..]));
    } else {
      var n := DecodedSize(x);
      DecodedSizeIsGrammar(x, n);
      CharSafe(x[..n]);
      RenderSafe(x[n..]);
      SafeConcat(x[..n], Render(x[n..]));
    }
  }

  lemma StepSafe(s: State)
    requires !Blocked(s) && TerminalSafe(s.output)
    ensures TerminalSafe(Step(s).output)
  {
    var first := s.pending[0];
    if s.carriageReturn {
      AsciiSafe([LF]);
      EscapeSafe(CR);
      SafeConcat(s.output, if first == LF then [LF] else Escape(CR));
    } else if first == CR {
    } else if first < 0x80 {
      EscapeSafe(first);
      if Printable(first) { AsciiSafe([first]); }
      SafeConcat(s.output, if Printable(first) then [first] else Escape(first));
    } else if DecodedSize(s.pending) == 0 {
      EscapeSafe(first);
      SafeConcat(s.output, Escape(first));
    } else {
      var n := DecodedSize(s.pending);
      DecodedSizeIsGrammar(s.pending, n);
      CharSafe(s.pending[..n]);
      SafeConcat(s.output, s.pending[..n]);
    }
  }

  lemma {:induction false} DrainSafe(s: State)
    requires TerminalSafe(s.output)
    ensures TerminalSafe(Drain(s).output)
    decreases Measure(s)
  {
    if !Blocked(s) { StepSafe(s); DrainSafe(Step(s)); }
  }

  // ----- What the terminal shows of each byte -----

  /** A reader of lower-case hexadecimal digits. */
  function DigitValue(d: byte): int {
    if '0' as int <= d <= '9' as int then d - '0' as int
    else if 'a' as int <= d <= 'f' as int then d - 'a' as int + 10
    else -1
  }

  /** Backslash, x, and two digits that read back as the byte. */
  predicate Names(shown: seq<byte>, b: byte) {
    && |shown| == 4 && shown[0] == '\\' as int && shown[1] == 'x' as int
    && DigitValue(shown[2]) >= 0 && DigitValue(shown[3]) >= 0
    && DigitValue(shown[2]) * 16 + DigitValue(shown[3]) == b
  }

  lemma EscapeNames(b: byte)
    ensures Names(Escape(b), b)
  {
  }

  /** Two escapes that name the same byte are the same text, so this fixes what an escape looks like. */
  lemma NamesOnce(x: seq<byte>, y: seq<byte>, b: byte)
    requires Names(x, b) && Names(y, b)
    ensures x == y
  {
  }

  /** Safe text begins with a character that is shown as it is. */
  lemma SafeSplits(safe: seq<byte>) returns (n: nat)
    requires TerminalSafe(safe) && safe != []
    ensures 1 <= n <= |safe| && Utf8Char(safe[..n]) && TerminalSafe(safe[n..])
    ensures forall b :: b in safe[..n] ==> Printable(b) || b >= 0x80
  {
    hide Utf8Char;
    n :| SplitsAt(safe, n) && ValidUtf8(safe[n..]);
    assert forall b :: b in safe[n..] ==> b in safe;
    assert forall b :: b in safe[..n] ==> b in safe;
  }

  lemma {:induction false} RenderAfterSafe(safe: seq<byte>, x: seq<byte>)
    requires TerminalSafe(safe)
    ensures Render(safe + x) == safe + Render(x)
    decreases |safe|
  {
    hide Render, TerminalSafe, Utf8Char;
    if safe == [] {
      assert safe + x == x;
    } else {
      var n := SafeSplits(safe);
      RenderAfterSafe(safe[n..], x);
      CharShown(safe[..n], safe[n..] + x);
      assert safe + x == safe[..n] + (safe[n..] + x);
      assert safe + Render(x) == safe[..n] + (safe[n..] + Render(x));
    }
  }

  lemma CharShown(c: seq<byte>, x: seq<byte>)
    requires Utf8Char(c) && forall b :: b in c ==> Printable(b) || b >= 0x80
    ensures Render(c + x) == c + Render(x)
  {
    assert c[0] in c && (c + x)[0] == c[0];
    if c[0] >= 0x80 {
      DecodedSizeIsGrammar(c + x, |c|);
      assert (c + x)[..|c|] == c && (c + x)[|c|..] == x;
    } else {
      assert |c| == 1 && (c + x)[1..] == x && c == [c[0]];
    }
  }

  /** Safe text is shown as it is. */
  lemma SafeIsUnchanged(x: seq<byte>)
    requires TerminalSafe(x)
    ensures Render(x) == x
  {
    RenderAfterSafe(x, []);
    assert x + [] == x;
  }

  /** Behind safe text, some name of the byte, and what follows as if it stood alone. */
  ghost predicate NamedBehind(safe: seq<byte>, b: byte, x: seq<byte>) {
    exists e :: Names(e, b) && Render(safe + [b] + x) == safe + e + Render(x)
  }

  lemma EscapeBehind(safe: seq<byte>, b: byte, x: seq<byte>)
    requires TerminalSafe(safe) && Render([b] + x) == Escape(b) + Render(x)
    ensures NamedBehind(safe, b, x)
  {
    hide Render, TerminalSafe, Escape;
    RenderAfterSafe(safe, [b] + x);
    assert safe + [b] + x == safe + ([b] + x);
    EscapeNames(b);
    assert safe + Escape(b) + Render(x) == safe + (Escape(b) + Render(x));
  }

  /** A control byte is named. */
  lemma ControlIsNamed(safe: seq<byte>, b: byte, x: seq<byte>)
    requires TerminalSafe(safe) && (b < 0x20 || b == 0x7F) && b != 9 && b != 10 && (b == 13 ==> x == [] || x[0] != 10)
    ensures NamedBehind(safe, b, x)
  {
    hide TerminalSafe;
    assert Render([b] + x) == Escape(b) + Render(x) by {
      assert ([b] + x)[0] == b && ([b] + x)[1..] == x;
    }
    EscapeBehind(safe, b, x);
  }

  /** So is a byte at which no UTF-8 character starts. */
  lemma InvalidIsNamed(safe: seq<byte>, b: byte, x: seq<byte>)
    requires TerminalSafe(safe) && b >= 0x80 && forall n :: 1 <= n <= |x| + 1 ==> !Utf8Char(([b] + x)[..n])
    ensures NamedBehind(safe, b, x)
  {
    hide TerminalSafe, Utf8Char;
    var y := [b] + x;
    if DecodedSize(y) > 0 { DecodedSizeIsGrammar(y, DecodedSize(y)); }
    assert Render(y) == Escape(b) + Render(x) by {
      hide DecodedSize;
      assert y[0] == b && y[1..] == x;
    }
    EscapeBehind(safe, b, x);
  }

  /** A carriage return before a newline disappears. */
  lemma LineEndIsNewline(safe: seq<byte>, x: seq<byte>)
    requires TerminalSafe(safe)
    ensures Render(safe + [13, 10] + x) == safe + [10] + Render(x)
  {
    RenderAfterSafe(safe, [13, 10] + x);
    assert safe + [13, 10] + x == safe + ([13, 10] + x) && ([13, 10] + x)[2..] == x;
    assert safe + [10] + Render(x) == safe + ([10] + Render(x));
  }

  // ----- The writer -----

  lemma FlushRenders(s: State, shown: seq<byte>, consumed: seq<byte>)
    requires s == Drain(State(shown, consumed, false)) && TerminalSafe(shown)
    ensures Flushed(s) == shown + Render(consumed)
    ensures TerminalSafe(Flushed(s))
  {
    DrainRenders(State(shown, consumed, false));
    RenderSafe(consumed);
    SafeConcat(shown, Render(consumed));
  }

  lemma StepDrains(s: State)
    requires !Blocked(s)
    ensures Drain(Step(s)) == Drain(s) && Measure(Step(s)) < Measure(s)
  {
  }

  /** `output` is everything the underlying writer received; that writer does not fail here.
      `shown` is what it had received at the last flush, `consumed` what was written since. */
  class SafeTokenWriter {
    var output: seq<byte>
    var pending: seq<byte>
    var carriageReturn: bool
    ghost var shown: seq<byte>
    ghost var consumed: seq<byte>

    ghost function Current(): State
      reads this
    {
      State(output, pending, carriageReturn)
    }

    /** The state is a function of the bytes consumed, however they were cut up. */
    ghost predicate Valid()
      reads this
    {
      Current() == Drain(State(shown, consumed, false)) && TerminalSafe(shown)
    }

    constructor ()
      ensures Valid() && consumed == [] && output == [] && shown == []
    {
      output, pending, carriageReturn, shown, consumed := [], [], false, [], [];
      new;
      AsciiSafe([]);
    }

    method Write(data: seq<byte>)
      requires Valid()
      modifies this
      ensures Valid() && consumed == old(consumed) + data && shown == old(shown)
      ensures carriageReturn ==> pending == []
      ensures TerminalSafe(output)
    {
      DrainThenFeed(State(shown, consumed, false), data);
      pending := pending + data;
      consumed := consumed + data;
      ghost var goal := Drain(State(shown, consumed, false));
      assert Drain(Current()) == goal;
      while |pending| > 0
        invariant consumed == old(consumed) + data && shown == old(shown)
        invariant Drain(Current()) == goal
        decreases Measure(Current())
      {
        ghost var s := Current();
        var first := pending[0];
        if carriageReturn {
          StepDrains(s);
          if first == LF {
            output, pending, carriageReturn := output + [LF], pending[1..], false;
            assert Current() == Step(s);
            continue;
          }
          output, carriageReturn := output + Escape(CR), false;
          assert Current() == Step(s);
          s := Current();
        }
        if first < 0x80 {
          StepDrains(s);
          pending := pending[1..];
          if first == CR {
            carriageReturn := true;
          } else if first == LF || first == TAB || (first >= 0x20 && first != 0x7F) {
            output := output + [first];
          } else {
            output := output + Escape(first);
          }
          assert Current() == Step(s);
          continue;
        }
        if !FullRune(pending) {
          break;
        }
        StepDrains(s);
        var size := DecodedSize(pending);
        if size == 0 {
          output := output + Escape(first);
          pending := pending[1..];
        } else {
          output := output + pending[..size];
          pending := pending[size..];
        }
        assert Current() == Step(s);
      }
      assert Blocked(Current());
      DrainSafe(State(shown, consumed, false));
    }

    /** The loop of Flush over the held-back bytes. */
    method EscapeHeld()
      modifies this`output
      ensures output == old(output) + EscapeAll(pending)
    {
      for i := 0 to |pending|
        invariant output == old(output) + EscapeAll(pending[..i])
      {
        assert pending[..i + 1] == pending[..i] + [pending[i]];
        EscapeAllAppend(pending[..i], pending[i]);
        output := output + Escape(pending[i]);
      }
      assert pending[..|pending|] == pending;
    }

    /** After Flush the terminal shows the rendering of the whole byte stream. */
    method Flush()
      requires Valid()
      modifies this
      ensures output == old(shown) + Render(old(consumed)) && TerminalSafe(output)
      ensures pending == [] && !carriageReturn
      ensures Valid() && consumed == [] && shown == output
    {
      ghost var s := Current();
      if carriageReturn {
        output := output + Escape(CR);
        carriageReturn := false;
      }
      EscapeHeld();
      FlushRenders(s, shown, consumed);
      pending := [];
      consumed := [];
      shown := output;
    }
  }

  /** Any two ways of cutting the same stream into writes show the same. */
  method WriteAll(chunks: seq<seq<byte>>) returns (shown: seq<byte>)
    ensures shown == Render(Joined(chunks)) && TerminalSafe(shown)
    ensures TerminalSafe(Joined(chunks)) ==> shown == Joined(chunks)
    ensures forall b :: Joined(chunks) == [b] && b != 9 && b != 10 && !(0x20 <= b < 0x7F) ==> Names(shown, b)
  {
    var w := new SafeTokenWriter();
    for i := 0 to |chunks|
      invariant w.Valid() && fresh(w) && w.shown == []
      invariant w.consumed == Joined(chunks[..i])
    {
      JoinedAppend(chunks[..i], chunks[i]);
      assert chunks[..i + 1] == chunks[..i] + [chunks[i]];
      w.Write(chunks[i]);
    }
    assert chunks[..|chunks|] == chunks;
    w.Flush();
    shown := w.output;
    assert shown == [] + Render(Joined(chunks));
    if TerminalSafe(Joined(chunks)) { SafeIsUnchanged(Joined(chunks)); }
    forall b | Joined(chunks) == [b] && b != 9 && b != 10 && !(0x20 <= b < 0x7F) ensures Names(shown, b) {
      OneByteNamed(b);
    }
  }

  lemma OneByteNamed(b: byte)
    requires b != 9 && b != 10 && !(0x20 <= b < 0x7F)
    ensures Names(Render([b]), b)
  {
    assert [b][1..] == [] && Escape(b) + [] == Escape(b);
    EscapeNames(b);
    assert b >= 0x80 ==> DecodedSize([b]) == 0;
  }

  function Joined(chunks: seq<seq<byte>>): seq<byte> {
    if chunks == [] then [] else chunks[0] + Joined(chunks[1..])
  }

  lemma {:induction false} JoinedAppend(chunks: seq<seq<byte>>, chunk: seq<byte>)
    ensures Joined(chunks + [chunk]) == Joined(chunks) + chunk
  {
    if chunks != [] {
      assert (chunks + [chunk])[1..] == chunks[1..] + [chunk];
      JoinedAppend(chunks[1..], chunk);
    }
  }
}
