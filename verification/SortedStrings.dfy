/** Lists of strings in order and without duplicates, as the source keeps license and source names. */
module SortedStrings {
  import opened Prelude

  /** Lexicographic order on code points. */
  predicate Less(a: string, b: string) {
    b != [] && (a == [] || a[0] < b[0] || (a[0] == b[0] && Less(a[1..], b[1..])))
  }

  /** Sorted and without duplicates. */
  predicate Sorted(keys: seq<string>) {
    |keys| <= 1 || (Sorted(keys[..|keys| - 1]) && Less(keys[|keys| - 2], keys[|keys| - 1]))
  }

  lemma {:induction false} LessTotal(a: string, b: string)
    ensures a == b || Less(a, b) || Less(b, a)
  {
    if a != [] && b != [] && a[0] == b[0] {
      LessTotal(a[1..], b[1..]);
      assert a == [a[0]] + a[1..] && b == [b[0]] + b[1..];
    }
  }

  lemma {:induction false} LessIrreflexive(a: string)
    ensures !Less(a, a)
  {
    if a != [] { LessIrreflexive(a[1..]); }
  }

  lemma {:induction false} LessTransitive(a: string, b: string, c: string)
    requires Less(a, b) && Less(b, c)
    ensures Less(a, c)
  {
    if a != [] && a[0] == b[0] && b[0] == c[0] { LessTransitive(a[1..], b[1..], c[1..]); }
  }

  /** The last key is the greatest. */
  lemma {:induction false} LastIsGreatest(keys: seq<string>, i: nat)
    requires Sorted(keys) && i < |keys| - 1
    ensures Less(keys[i], keys[|keys| - 1])
  {
    var front := keys[..|keys| - 1];
    if i < |front| - 1 {
      LastIsGreatest(front, i);
      LessTransitive(keys[i], keys[|keys| - 2], keys[|keys| - 1]);
    }
  }

  lemma {:induction false} SortedPrefix(keys: seq<string>, n: nat)
    requires Sorted(keys) && n <= |keys|
    ensures Sorted(keys[..n])
  {
    if n < |keys| {
      SortedPrefix(keys[..|keys| - 1], n);
      assert keys[..|keys| - 1][..n] == keys[..n];
    } else {
      assert keys[..n] == keys;
    }
  }

  lemma SortedHasNoDuplicates(keys: seq<string>)
    requires Sorted(keys)
    ensures NoDuplicates(keys)
  {
    forall i, j | 0 <= i < j < |keys| ensures keys[i] != keys[j] {
      SortedPrefix(keys, j + 1);
      LastIsGreatest(keys[..j + 1], i);
      LessIrreflexive(keys[j]);
    }
  }

  lemma {:induction false} SetSize(keys: seq<string>)
    requires NoDuplicates(keys)
    ensures |ToSet(keys)| == |keys|
  {
    if keys != [] {
      var front, last := keys[..|keys| - 1], keys[|keys| - 1];
      SetSize(front);
      assert ToSet(keys) == ToSet(front) + {last};
    }
  }

  /** Where a key belongs among sorted keys. */
  function Insert(keys: seq<string>, k: string): seq<string> {
    if keys == [] || Less(keys[|keys| - 1], k) then keys + [k]
    else Insert(keys[..|keys| - 1], k) + [keys[|keys| - 1]]
  }

  lemma SortedAppend(keys: seq<string>, k: string)
    requires Sorted(keys) && (keys == [] || Less(keys[|keys| - 1], k))
    ensures Sorted(keys + [k])
  {
    hide Less;
    assert (keys + [k])[..|keys|] == keys;
  }

  lemma ToSetAppend(keys: seq<string>, k: string)
    ensures ToSet(keys + [k]) == ToSet(keys) + {k}
  {
    assert forall x :: x in keys + [k] <==> x in keys || x == k;
  }

  lemma {:induction false} InsertSorted(keys: seq<string>, k: string)
    requires Sorted(keys) && k !in keys
    ensures Sorted(Insert(keys, k)) && ToSet(Insert(keys, k)) == ToSet(keys) + {k}
    ensures |Insert(keys, k)| == |keys| + 1
    ensures Insert(keys, k)[|keys|] == k || (keys != [] && Insert(keys, k)[|keys|] == keys[|keys| - 1])
  {
    hide Less, ToSet;
    if keys == [] || Less(keys[|keys| - 1], k) {
      SortedAppend(keys, k);
      ToSetAppend(keys, k);
    } else {
      var front, last := keys[..|keys| - 1], keys[|keys| - 1];
      assert keys == front + [last];
      SortedPrefix(keys, |keys| - 1);
      InsertSorted(front, k);
      LessTotal(last, k);
      SortedAppend(Insert(front, k), last);
      ToSetAppend(front, last);
      ToSetAppend(Insert(front, k), last);
    }
  }

  /** sortedKeys */
  method SortedKeys(values: set<string>) returns (keys: seq<string>)
    ensures Sorted(keys) && ToSet(keys) == values
  {
    keys := [];
    var rest := values;
    while rest != {}
      invariant rest <= values && Sorted(keys) && ToSet(keys) == values - rest
    {
      var k :| k in rest;
      assert k !in ToSet(keys);
      InsertSorted(keys, k);
      keys, rest := Insert(keys, k), rest - {k};
    }
  }

  // ----- What the order is -----

  /** The strings agree up to position i, where a ends or has the lower character. */
  predicate LowerAt(a: string, b: string, i: nat) {
    i <= |a| && i < |b| && a[..i] == b[..i] && (i == |a| || a[i] < b[i])
  }

  lemma {:induction false} LessMeaning(a: string, b: string)
    ensures Less(a, b) <==> exists i: nat :: LowerAt(a, b, i)
  {
    if a == [] || b == [] || a[0] != b[0] {
      if b != [] && (a == [] || a[0] < b[0]) { assert LowerAt(a, b, 0); }
      forall i: nat { LowerStart(a, b, i); }
    } else {
      LessMeaning(a[1..], b[1..]);
      forall i: nat ensures LowerAt(a, b, i) <==> i > 0 && LowerAt(a[1..], b[1..], i - 1) { LowerBehind(a, b, i); }
      if i: nat :| LowerAt(a[1..], b[1..], i) { assert LowerAt(a, b, i + 1); }
    }
  }

  lemma LowerStart(a: string, b: string, i: nat)
    ensures LowerAt(a, b, i) && i > 0 ==> a != [] && b != [] && a[0] == b[0]
  {
    if LowerAt(a, b, i) && i > 0 { assert a[..i][0] == b[..i][0]; }
  }

  lemma LowerBehind(a: string, b: string, i: nat)
    requires a != [] && b != [] && a[0] == b[0]
    ensures LowerAt(a, b, i) <==> i > 0 && LowerAt(a[1..], b[1..], i - 1)
  {
    if 0 < i <= |a| && i <= |b| {
      assert a[..i] == [a[0]] + a[1..][..i - 1] && b[..i] == [b[0]] + b[1..][..i - 1];
      assert a[..i][1..] == a[1..][..i - 1] && b[..i][1..] == b[1..][..i - 1];
    }
  }

  lemma {:induction false} PairwiseSorts(keys: seq<string>)
    requires forall i, j :: 0 <= i < j < |keys| ==> Less(keys[i], keys[j])
    ensures Sorted(keys)
  {
    hide Less;
    if |keys| > 1 { PairwiseSorts(keys[..|keys| - 1]); }
  }

  /** A list is sorted exactly when every key is below every later one. */
  lemma SortedMeaning(keys: seq<string>)
    ensures Sorted(keys) <==> forall i, j :: 0 <= i < j < |keys| ==> Less(keys[i], keys[j])
  {
    hide Less;
    if Sorted(keys) {
      forall i, j | 0 <= i < j < |keys| ensures Less(keys[i], keys[j]) {
        SortedPrefix(keys, j + 1);
        LastIsGreatest(keys[..j + 1], i);
      }
    }
    if forall i, j :: 0 <= i < j < |keys| ==> Less(keys[i], keys[j]) { PairwiseSorts(keys); }
  }
}
