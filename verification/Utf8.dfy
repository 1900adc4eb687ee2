/**
 UTF-8 decoding as the Go library does it, checked against the grammar of
 section 4 of RFC 3629.
 */
module Utf8 {

  type byte = b: int | 0 <= b < 256

  predicate Tail(b: byte) { 0x80 <= b <= 0xBF }

  // ----- The grammar -----

  predicate Utf8One(s: seq<byte>) { |s| == 1 && s[0] <= 0x7F }

  predicate Utf8Two(s: seq<byte>) { |s| == 2 && 0xC2 <= s[0] <= 0xDF && Tail(s[1]) }

  predicate Utf8Three(s: seq<byte>) {
    |s| == 3 && Tail(s[2]) &&
    ( (s[0] == 0xE0 && 0xA0 <= s[1] <= 0xBF)
    || (0xE1 <= s[0] <= 0xEC && Tail(s[1]))
    || (s[0] == 0xED && 0x80 <= s[1] <= 0x9F)
    || (0xEE <= s[0] <= 0xEF && Tail(s[1])))
  }

  predicate Utf8Four(s: seq<byte>) {
    |s| == 4 && Tail(s[2]) && Tail(s[3]) &&
    ( (s[0] == 0xF0 && 0x90 <= s[1] <= 0xBF)
    || (0xF1 <= s[0] <= 0xF3 && Tail(s[1]))
    || (s[0] == 0xF4 && 0x80 <= s[1] <= 0x8F))
  }

  /** One UTF8-char of the grammar. */
  predicate Utf8Char(s: seq<byte>) { Utf8One(s) || Utf8Two(s) || Utf8Three(s) || Utf8Four(s) }

  /** UTF8-octets: a sequence of UTF8-char. */
  ghost predicate ValidUtf8(s: seq<byte>) {
    s == [] || exists n :: SplitsAt(s, n) && ValidUtf8(s[n..])
  }

  predicate SplitsAt(s: seq<byte>, n: int) { 1 <= n <= |s| && Utf8Char(s[..n]) }

  // ----- The library -----

  /** Bytes the lead byte announces; 1 also for bytes that cannot lead. */
  function Announced(b: byte): nat {
    if 0xC2 <= b <= 0xDF then 2 else if 0xE0 <= b <= 0xEF then 3 else if 0xF0 <= b <= 0xF4 then 4 else 1
  }

  /** The range of the second byte, by lead byte. */
  predicate AcceptsSecond(lead: byte, b: byte) {
    (if lead == 0xE0 then 0xA0 else if lead == 0xF0 then 0x90 else 0x80) <= b
    <= (if lead == 0xED then 0x9F else if lead == 0xF4 then 0x8F else 0xBF)
  }

  /** utf8.FullRune: the prefix can be decoded, as a character or as an error. */
  predicate FullRune(p: seq<byte>) {
    p != [] &&
    ( |p| >= Announced(p[0])
    || (|p| > 1 && !AcceptsSecond(p[0], p[1]))
    || (|p| > 2 && !Tail(p[2])))
  }

  /** utf8.DecodeRune: the size of the leading character, or 0 where the library answers
      RuneError with size 1. */
  function DecodedSize(p: seq<byte>): (n: nat)
    requires p != []
    ensures n <= |p|
  {
    var n := Announced(p[0]);
    if n == 1 then (if p[0] < 0x80 then 1 else 0)
    else if |p| < n || !AcceptsSecond(p[0], p[1]) then 0
    else if n >= 3 && !Tail(p[2]) then 0
    else if n == 4 && !Tail(p[3]) then 0
    else n
  }

  /** The decoder recognises exactly the grammar. */
  lemma DecodedSizeIsGrammar(p: seq<byte>, n: nat)
    requires p != [] && 1 <= n <= |p|
    ensures Utf8Char(p[..n]) <==> DecodedSize(p) == n
  {
    var m := Announced(p[0]);
    assert p[..n][0] == p[0];
    assert n > 1 ==> p[..n][1] == p[1];
    assert n > 2 ==> p[..n][2] == p[2];
    assert n > 3 ==> p[..n][3] == p[3];
  }

  /** Once decodable, later bytes change neither that nor the outcome. */
  lemma DecodingIsPrefixDetermined(p: seq<byte>, q: seq<byte>)
    requires FullRune(p)
    ensures FullRune(p + q) && DecodedSize(p + q) == DecodedSize(p)
  {
  }

  /** What cannot be decoded yet is a lead byte followed by tail bytes only. */
  lemma UndecodableIsTails(p: seq<byte>)
    requires p != [] && !FullRune(p)
    ensures p[0] >= 0x80 && forall i :: 1 <= i < |p| ==> Tail(p[i])
    ensures |p| <= 3 && DecodedSize(p) == 0
  {
  }

  lemma ValidBehind(s: seq<byte>, n: int)
    requires SplitsAt(s, n) && ValidUtf8(s[n..])
    ensures ValidUtf8(s)
  {
  }

  lemma SplitLonger(s: seq<byte>, t: seq<byte>, n: int)
    requires SplitsAt(s, n)
    ensures SplitsAt(s + t, n) && (s + t)[n..] == s[n..] + t
  {
    assert (s + t)[..n] == s[..n];
  }

  lemma {:induction false} ValidConcat(s: seq<byte>, t: seq<byte>)
    requires ValidUtf8(s) && ValidUtf8(t)
    ensures ValidUtf8(s + t)
    decreases |s|
  {
    hide Utf8Char;
    if s == [] {
      assert s + t == t;
    } else {
      var n :| SplitsAt(s, n) && ValidUtf8(s[n..]);
      ValidConcat(s[n..], t);
      SplitLonger(s, t, n);
      ValidBehind(s + t, n);
    }
  }

  lemma CharIsValid(s: seq<byte>)
    requires Utf8Char(s)
    ensures ValidUtf8(s)
  {
    assert s[..|s|] == s;
    assert s[|s|..] == [];
    assert SplitsAt(s, |s|);
  }
}
