/** Word shingles and their overlap.  Ratios are exact reals. */
module Jaccard {
  import opened Prelude

  datatype Fingerprint = Fingerprint(id: string, exact: string, shingles: set<string>)

  datatype Record = Record(id: string, body: string)

  /** `words` lower-cases and splits a text; `hash` digests the normalized text. */
  datatype Text = Text(words: string -> seq<string>, hash: string -> string)

  function Join(words: seq<string>): string {
    if words == [] then ""
    else if |words| == 1 then words[0]
    else Join(words[..|words| - 1]) + " " + words[|words| - 1]
  }

  /** What splitting at white space gives. */
  ghost predicate Words(words: seq<string>) { forall w :: w in words ==> w != "" && ' ' !in w }

  lemma {:induction false} JoinNonEmpty(words: seq<string>)
    requires Words(words)
    ensures Join(words) == "" <==> words == []
    ensures ' ' in Join(words) <==> |words| > 1
  {
    if |words| == 1 {
      assert words[0] in words;
    } else if |words| > 1 {
      assert words[|words| - 1] in words;
      assert Join(words)[|Join(words[..|words| - 1])|] == ' ';
    }
  }

  /** Behind its last space a joined text has its last word. */
  lemma LastWordEqual(x: string, l: string, y: string, m: string)
    requires x + " " + l == y + " " + m && ' ' !in l && ' ' !in m
    ensures x == y && l == m
  {
    var s, t := x + " " + l, y + " " + m;
    assert |l| == |m| by {
      assert s[|x|] == ' ' && t[|y|] == ' ' && s[|x| + 1..] == l && t[|y| + 1..] == m;
    }
    assert s[..|x|] == x && t[..|y|] == y && s[|x| + 1..] == l && t[|y| + 1..] == m;
  }

  /** Distinct word lists join to distinct texts. */
  lemma {:induction false} JoinInjective(a: seq<string>, b: seq<string>)
    requires Words(a) && Words(b) && Join(a) == Join(b)
    ensures a == b
  {
    JoinNonEmpty(a);
    JoinNonEmpty(b);
    if |a| > 1 {
      var n, k := |a| - 1, |b| - 1;
      assert a[n] in a && b[k] in b;
      assert Words(a[..n]) by { assert forall w :: w in a[..n] ==> w in a; }
      assert Words(b[..k]) by { assert forall w :: w in b[..k] ==> w in b; }
      LastWordEqual(Join(a[..n]), a[n], Join(b[..k]), b[k]);
      JoinInjective(a[..n], b[..k]);
      assert a == a[..n] + [a[n]] && b == b[..k] + [b[k]];
    } else if |a| == 1 {
      assert |b| == 1 && a == [a[0]] && b == [b[0]];
    }
  }

  /** The runs of `width` words that start before `n`. */
  function Runs(words: seq<string>, width: nat, n: nat): set<string>
    requires n == 0 || n + width <= |words| + 1
  {
    if n == 0 then {} else Runs(words, width, n - 1) + {Join(words[n - 1..n - 1 + width])}
  }

  /** A text shorter than a shingle is one shingle by itself; an empty one has none. */
  function Shingles(words: seq<string>, width: nat): set<string> {
    if |words| < width then (if Join(words) == "" then {} else {Join(words)})
    else Runs(words, width, |words| - width + 1)
  }

  predicate RunAt(words: seq<string>, width: nat, i: nat, s: string) {
    i + width <= |words| && s == Join(words[i..i + width])
  }

  /** Exactly the joined runs of `width` consecutive words. */
  lemma {:induction false} RunsMeaning(words: seq<string>, width: nat, n: nat, s: string)
    requires n == 0 || n + width <= |words| + 1
    ensures s in Runs(words, width, n) <==> exists i: nat :: i < n && RunAt(words, width, i, s)
  {
    if n > 0 {
      RunsMeaning(words, width, n - 1, s);
      if RunAt(words, width, n - 1, s) {
        assert s in Runs(words, width, n);
      }
    }
  }

  lemma ShinglesMeaning(words: seq<string>, width: nat, s: string)
    requires width >= 1
    ensures |words| >= width ==> (s in Shingles(words, width) <==> exists i: nat :: RunAt(words, width, i, s))
    ensures |words| < width ==> (s in Shingles(words, width) <==> s != "" && s == Join(words))
  {
    if |words| >= width {
      RunsMeaning(words, width, |words| - width + 1, s);
    }
  }

  /** fingerprintRecord; the source's policy demands at least one word in a shingle. */
  method FingerprintRecord(text: Text, r: Record, width: nat) returns (f: Fingerprint)
    requires width >= 1
    ensures f == FingerprintOf(text, r, width)
  {
    var words := text.words(r.body);
    var normalized := Join(words);
    var shingles: set<string> := {};
    if |words| < width {
      if normalized != "" {
        shingles := {normalized};
      }
    } else {
      var index := 0;
      while index + width <= |words|
        invariant index <= |words| - width + 1
        invariant shingles == Runs(words, width, index)
      {
        shingles := shingles + {Join(words[index..index + width])};
        index := index + 1;
      }
    }
    f := Fingerprint(r.id, text.hash(normalized), shingles);
  }

  function FingerprintOf(text: Text, r: Record, width: nat): Fingerprint {
    var words := text.words(r.body);
    Fingerprint(r.id, text.hash(Join(words)), Shingles(words, width))
  }

  function FingerprintsOf(text: Text, records: seq<Record>, width: nat): seq<Fingerprint> {
    if records == [] then []
    else FingerprintsOf(text, records[..|records| - 1], width) + [FingerprintOf(text, records[|records| - 1], width)]
  }

  /** Two records have the same digest exactly when they have the same words, unless the digest collides. */
  lemma SameDigestIffSameWords(text: Text, r: Record, s: Record, width: nat)
    requires Words(text.words(r.body)) && Words(text.words(s.body))
    requires forall x, y :: text.hash(x) == text.hash(y) ==> x == y
    ensures FingerprintOf(text, r, width).exact == FingerprintOf(text, s, width).exact <==>
            text.words(r.body) == text.words(s.body)
    ensures FingerprintOf(text, r, width).id == r.id
  {
    if Join(text.words(r.body)) == Join(text.words(s.body)) { JoinInjective(text.words(r.body), text.words(s.body)); }
  }

  lemma {:induction false} FingerprintsAt(text: Text, records: seq<Record>, width: nat)
    ensures |FingerprintsOf(text, records, width)| == |records|
    ensures forall i :: 0 <= i < |records| ==> FingerprintsOf(text, records, width)[i] == FingerprintOf(text, records[i], width)
  {
    if records != [] { FingerprintsAt(text, records[..|records| - 1], width); }
  }

  // ----- Overlap -----

  /** The Jaccard index; zero when one of the sets is empty. */
  function Overlap(left: set<string>, right: set<string>): real {
    if left == {} || right == {} then 0.0 else |left * right| as real / |left + right| as real
  }

  lemma UnionNonEmpty(left: set<string>, right: set<string>)
    requires left != {} || right != {}
    ensures |left + right| > 0
  {
    assert left + right != {};
  }

  lemma SizeSplit(a: set<string>, b: set<string>)
    requires a !! b
    ensures |a + b| == |a| + |b|
  {
  }

  lemma SubsetSize(a: set<string>, b: set<string>)
    requires a <= b
    ensures |a| <= |b| && (|a| == |b| ==> a == b)
  {
    SizeSplit(a, b - a);
    assert a + (b - a) == b;
  }

  lemma CountStep(left: set<string>, done: set<string>, value: string)
    requires value !in done
    ensures |left * (done + {value})| == |left * done| + if value in left then 1 else 0
    ensures |left + (done + {value})| == |left + done| + if value in left then 0 else 1
  {
    if value in left {
      assert left * (done + {value}) == left * done + {value} && left + (done + {value}) == left + done;
    } else {
      assert left * (done + {value}) == left * done && left + (done + {value}) == left + done + {value};
    }
  }

  /** shingleOverlap counts the right-hand shingles once: in the intersection, or as an addition to the union. */
  method ShingleOverlap(left: set<string>, right: set<string>) returns (ratio: real)
    ensures ratio == Overlap(left, right)
  {
    if |left| == 0 || |right| == 0 {
      return 0.0;
    }
    var intersection, union := 0, |left|;
    var rest := right;
    ghost var done: set<string> := {};
    assert left * done == {} && left + done == left;
    while rest != {}
      invariant done + rest == right && done !! rest && union > 0
      invariant intersection == |left * done| && union == |left + done|
      decreases |rest|
    {
      var value :| value in rest;
      CountStep(left, done, value);
      if value in left {
        intersection := intersection + 1;
      } else {
        union := union + 1;
      }
      rest := rest - {value};
      done := done + {value};
    }
    assert done == right;
    ratio := intersection as real / union as real;
  }

  /** The order of the arguments does not matter. */
  lemma OverlapSymmetric(left: set<string>, right: set<string>)
    ensures Overlap(left, right) == Overlap(right, left)
  {
    assert left * right == right * left && left + right == right + left;
  }

  /** A share of the union: nothing in common is 0, the same set is 1, and nothing else is either. */
  lemma OverlapRange(left: set<string>, right: set<string>)
    ensures 0.0 <= Overlap(left, right) <= 1.0
    ensures Overlap(left, right) > 0.0 <==> left * right != {}
    ensures left != {} && right != {} ==> (Overlap(left, right) == 1.0 <==> left == right)
  {
    if left != {} && right != {} {
      UnionNonEmpty(left, right);
      var i, u := |left * right|, |left + right|;
      SubsetSize(left * right, left + right);
      RatioRange(i, u);
      assert i == 0 <==> left * right == {};
      if left * right == left + right {
        assert left == right;
      }
      if left == right {
        assert left * right == left + right;
      }
    }
  }

  lemma RatioRange(i: nat, u: nat)
    requires i <= u && u > 0
    ensures 0.0 <= i as real / u as real <= 1.0
    ensures i as real / u as real > 0.0 <==> i > 0
    ensures i as real / u as real == 1.0 <==> i == u
  {
    var q := i as real / u as real;
    assert q * u as real == i as real;
  }
}
