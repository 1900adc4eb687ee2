/** Small definitions shared by every module of the model. */
module Prelude {

  /** An optional value: the source's nil-able pointers and missing map keys. */
  datatype Option<+T> = None | Some(value: T)

  /** The source's (value, error) returns. */
  datatype Result<+T, +E> = Ok(value: T) | Err(error: E)

  function Max(a: int, b: int): int { if a > b then a else b }

  function One(b: bool): int { if b then 1 else 0 }

  /** No element occurs twice. */
  ghost predicate NoDuplicates<T>(s: seq<T>) {
    forall i, j :: 0 <= i < j < |s| ==> s[i] != s[j]
  }

  function ToSet<T>(s: seq<T>): set<T> { set x | x in s }

  lemma NoDuplicatesFront<T>(s: seq<T>)
    requires NoDuplicates(s) && s != []
    ensures NoDuplicates(s[..|s| - 1])
    ensures s[|s| - 1] !in s[..|s| - 1] && ToSet(s[..|s| - 1]) == ToSet(s) - {s[|s| - 1]}
  {
    var front, last := s[..|s| - 1], s[|s| - 1];
    forall x | x in front ensures x != last {
      var i :| 0 <= i < |front| && front[i] == x;
      assert s[i] == x;
    }
    assert s == front + [last];
  }

  /** The numbers below n, the positions that a loop still has to visit. */
  function Below(n: nat): set<nat> { if n == 0 then {} else Below(n - 1) + {n - 1} }

  lemma {:induction false} BelowMeaning(n: nat, i: nat)
    ensures i in Below(n) <==> i < n
  {
    if n > 0 { BelowMeaning(n - 1, i); }
  }

  lemma MulBound(d: nat, k: int)
    requires d > 0
    ensures (k >= 1 ==> d * k >= d) && (k <= -1 ==> d * k <= 0 - d)
  {
  }
}
