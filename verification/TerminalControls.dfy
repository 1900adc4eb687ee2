/**
 Which control characters reach the terminal.  The filter looks at single bytes
 and at whole characters, so the control characters U+0080 to U+009F, which are
 two bytes of well-formed UTF-8, are not among those it escapes.
 */
module TerminalControls {
  import opened Utf8
  import opened SafeTokenWriters

  /** The encoding of one of the characters U+0080 to U+009F begins at i. */
  predicate HighControlAt(s: seq<byte>, i: int) {
    0 <= i < |s| - 1 && s[i] == 0xC2 && 0x80 <= s[i + 1] <= 0x9F
  }

  ghost predicate HighControl(s: seq<byte>) { exists i :: HighControlAt(s, i) }

  predicate LowControl(b: byte) { (b < 0x20 && b != 9 && b != 10) || b == 0x7F }

  /** No control character but newline and tab, in either of the two ranges. */
  ghost predicate NoControls(s: seq<byte>) {
    !HighControl(s) && forall b :: b in s ==> !LowControl(b)
  }

  lemma HighConcat(a: seq<byte>, b: seq<byte>)
    ensures HighControl(a + b) <==> HighControl(a) || HighControl(b) || HighControlAt(a + b, |a| - 1)
  {
    var s := a + b;
    if i :| HighControlAt(s, i) {
      if i < |a| - 1 { assert HighControlAt(a, i); }
      if i >= |a| { assert HighControlAt(b, i - |a|); }
    }
    if i :| HighControlAt(a, i) { assert HighControlAt(s, i); }
    if i :| HighControlAt(b, i) { assert HighControlAt(s, |a| + i); }
  }

  /** Bytes whose last one is not the lead byte of such a character can be looked at on their own. */
  lemma HighApart(a: seq<byte>, b: seq<byte>)
    requires a != [] && a[|a| - 1] != 0xC2
    ensures HighControl(a + b) <==> HighControl(a) || HighControl(b)
  {
    HighConcat(a, b);
    assert (a + b)[|a| - 1] == a[|a| - 1];
  }

  lemma AsciiHasNone(a: seq<byte>)
    requires forall b :: b in a ==> b < 0x80
    ensures !HighControl(a)
  {
    forall i ensures !HighControlAt(a, i) {
      if 0 <= i < |a| { assert a[i] in a; }
    }
  }

  /** One byte that is not shown as part of a character. */
  lemma ByteApart(shown: seq<byte>, rest: seq<byte>, x: seq<byte>)
    requires x != [] && shown != [] && forall b :: b in shown ==> b < 0x80
    requires !HighControlAt(x, 0)
    ensures HighControl(x) <==> HighControl(x[1..])
    ensures HighControl(shown + rest) <==> HighControl(rest)
  {
    AsciiHasNone(shown);
    assert shown[|shown| - 1] in shown;
    HighApart(shown, rest);
    assert x == [x[0]] + x[1..];
    HighConcat([x[0]], x[1..]);
    assert forall i :: !HighControlAt([x[0]], i);
  }

  lemma CharEnds(c: seq<byte>)
    requires Utf8Char(c)
    ensures c[|c| - 1] != 0xC2
  {
  }

  lemma PairDecodes(x: seq<byte>)
    requires HighControlAt(x, 0)
    ensures DecodedSize(x) == 2
  {
  }

  /** The filter neither adds nor takes away such a character. */
  lemma {:induction false} HighControlsPass(x: seq<byte>)
    ensures HighControl(Render(x)) <==> HighControl(x)
    decreases |x|
  {
    hide HighControl, Utf8Char, DecodedSize;
    if x == [] {
      AsciiHasNone([]);
    } else if x[0] == CR && |x| > 1 && x[1] == LF {
      HighControlsPass(x[2..]);
      ByteApart([LF], Render(x[2..]), x);
      ByteApart([LF], Render(x[2..]), x[1..]);
    } else if x[0] < 0x80 {
      var shown := if x[0] != CR && Printable(x[0]) then [x[0]] else Escape(x[0]);
      HighControlsPass(x[1..]);
      ByteApart(shown, Render(x[1..]), x);
    } else if DecodedSize(x) == 0 {
      if HighControlAt(x, 0) { PairDecodes(x); }
      HighControlsPass(x[1..]);
      ByteApart(Escape(x[0]), Render(x[1..]), x);
    } else {
      var n := DecodedSize(x);
      DecodedBound(x);
      DecodedSizeIsGrammar(x, n);
      CharEnds(x[..n]);
      HighControlsPass(x[n..]);
      HighApart(x[..n], Render(x[n..]));
      HighApart(x[..n], x[n..]);
      assert x == x[..n] + x[n..];
    }
  }

  lemma DecodedBound(x: seq<byte>)
    requires x != []
    ensures 0 <= DecodedSize(x) <= |x|
  {
  }

  /** So what is shown is free of control characters exactly when the input has none of U+0080 to U+009F. */
  lemma ControlFreeIff(x: seq<byte>)
    ensures NoControls(Render(x)) <==> !HighControl(x)
  {
    HighControlsPass(x);
    RenderSafe(x);
  }

  /** The character U+009B, in UTF-8, is shown as it is, although it is a control character. */
  lemma HighControlShown()
    ensures Render([0xC2, 0x9B]) == [0xC2, 0x9B] && !NoControls(Render([0xC2, 0x9B]))
  {
    var x: seq<byte> := [0xC2, 0x9B];
    assert HighControlAt(x, 0);
    assert DecodedSize(x) == 2 && x[..2] == x && x[2..] == [];
  }
}
