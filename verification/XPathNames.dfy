/** What selectors of the XPath subset select: the four ways to write a name, and the plain forms of a path. */
module XPathNames {
  import opened XPath

  lemma {:induction false} FirstIndex(a: string, c: char, b: string)
    requires c !in a
    ensures IndexOf(a + [c] + b, c) == |a|
  {
    var s := a + [c] + b;
    if a == "" {
      assert s[0] == c;
    } else {
      assert s[0] == a[0] && a[0] in a && s[1..] == a[1..] + [c] + b;
      FirstIndex(a[1..], c, b);
    }
  }

  lemma {:induction false} NoIndex(s: string, c: char)
    requires c !in s
    ensures IndexOf(s, c) == -1
  {
    if s != "" {
      assert s[0] in s;
      NoIndex(s[1..], c);
    }
  }

  /** "*" selects every name, and a plain local name every element of that local name in any namespace. */
  lemma PlainName(name: Name, local: string)
    requires ':' !in local && (local == "" || local[0] != '{')
    ensures NameMatches(name, local) <==> local == "*" || name.local == local
  {
    NoIndex(local, ':');
  }

  /** A prefix before the first colon is dropped, whatever it is bound to. */
  lemma PrefixedName(name: Name, prefix: string, local: string)
    requires ':' !in prefix && (prefix == "" || prefix[0] != '{')
    ensures NameMatches(name, prefix + ":" + local) <==> name.local == local
  {
    FirstIndex(prefix, ':', local);
    var s := prefix + ":" + local;
    assert s[|prefix|] == ':' && s[|prefix| + 1..] == local;
    assert prefix != "" ==> s[0] == prefix[0];
  }

  /** A braced namespace must be present and equal, and so must the local name, colons included. */
  lemma BracedName(name: Name, space: string, local: string)
    requires '}' !in space
    ensures NameMatches(name, "{" + space + "}" + local) <==> space != "" && name == Name(space, local)
  {
    var s := "{" + space + "}" + local;
    assert s == ("{" + space) + ['}'] + local;
    FirstIndex("{" + space, '}', local);
    assert s[1..|space| + 1] == space && s[|space| + 2..] == local;
  }

  /** A brace that is never closed selects nothing. */
  lemma UnclosedBrace(name: Name, rest: string)
    requires '}' !in rest
    ensures !NameMatches(name, "{" + rest)
  {
    NoIndex("{" + rest, '}');
  }

  ghost predicate NamesAgree(path: seq<Name>, steps: seq<Step>, from: nat) {
    |path| == from + |steps| && forall k :: 0 <= k < |steps| ==> NameMatches(path[from + k], steps[k].name)
  }

  /** A path of child steps selects exactly the elements at its depth whose names match from the root down. */
  lemma {:induction false} ChildSteps(path: seq<Name>, steps: seq<Step>, from: nat)
    requires from <= |path| && forall k :: 0 <= k < |steps| ==> !steps[k].descendant
    ensures Matches(path, steps, from) <==> NamesAgree(path, steps, from)
  {
    hide NameMatches;
    if steps == [] {
      assert Placed(path, steps, [], from) <==> from == |path|;
    } else if from < |path| {
      ChildSteps(path, steps[1..], from + 1);
      if Matches(path, steps, from) {
        var places: seq<nat> :| Placed(path, steps, places, from);
        PlacedFirst(path, steps, places, from);
        AgreeFirst(path, steps, from);
      }
      if NamesAgree(path, steps, from) {
        assert NameMatches(path[from + 0], steps[0].name);
        forall k | 0 <= k < |steps[1..]| ensures NameMatches(path[from + 1 + k], steps[1..][k].name) {
          assert NameMatches(path[from + (k + 1)], steps[k + 1].name);
        }
        FirstPlace(path, steps, from, from);
      }
    }
  }

  lemma AgreeFirst(path: seq<Name>, steps: seq<Step>, from: nat)
    requires steps != [] && from < |path| && NameMatches(path[from], steps[0].name) && NamesAgree(path, steps[1..], from + 1)
    ensures NamesAgree(path, steps, from)
  {
    hide NameMatches;
    forall k | 0 <= k < |steps| ensures NameMatches(path[from + k], steps[k].name) {
      if k > 0 {
        assert NameMatches(path[from + 1 + (k - 1)], steps[1..][k - 1].name);
        assert steps[1..][k - 1] == steps[k];
      }
    }
  }

  /** "//name" selects exactly the elements of that name, at any depth. */
  lemma DescendantStep(path: seq<Name>, name: string)
    ensures Matches(path, [Step(name, true)], 0) <==> path != [] && NameMatches(path[|path| - 1], name)
  {
    hide NameMatches;
    var steps := [Step(name, true)];
    assert steps[1..] == [];
    if Matches(path, steps, 0) {
      var places: seq<nat> :| Placed(path, steps, places, 0);
      assert Placed(path, steps[1..], places[1..], places[0] + 1);
    }
    if path != [] && NameMatches(path[|path| - 1], name) {
      assert Placed(path, [], [], |path|);
      FirstPlace(path, steps, 0, |path| - 1);
    }
  }

  // ----- What is excluded -----

  /** An attribute selector excludes nothing. */
  lemma AttributeExcludesNothing(path: seq<Name>, steps: seq<Step>, attribute: string)
    requires attribute != ""
    ensures !Excluded(path, [Selector(steps, attribute)])
  {
  }

  /** "//name" excludes exactly the elements of that name. */
  lemma NameExcludes(path: seq<Name>, name: string)
    ensures Excluded(path, [Selector([Step(name, true)], "")]) <==> path != [] && NameMatches(path[|path| - 1], name)
  {
    hide NameMatches;
    DescendantStep(path, name);
    var only := Selector([Step(name, true)], "");
    assert only in [only];
  }

  /** Exclusions add up. */
  lemma ExclusionsAddUp(path: seq<Name>, some: seq<Selector>, more: seq<Selector>)
    ensures Excluded(path, some + more) <==> Excluded(path, some) || Excluded(path, more)
  {
    hide Matches;
    assert forall e :: e in some + more <==> e in some || e in more;
  }

  function AllText(leaves: seq<Leaf>): string {
    if leaves == [] then "" else AllText(leaves[..|leaves| - 1]) + leaves[|leaves| - 1].text
  }

  /** Without exclusions all the text is taken. */
  lemma {:induction false} NothingExcluded(leaves: seq<Leaf>, from: nat)
    ensures VisibleText(leaves, from, []) == AllText(leaves)
  {
    if leaves != [] { NothingExcluded(leaves[..|leaves| - 1], from); }
  }

  /** A piece of text is taken exactly when neither the element it stands in nor any above it, up to the match, has
      the excluded name. */
  lemma VisibleMeaning(leaf: Leaf, depth: nat, name: string)
    ensures Visible(leaf, depth + 1, [Selector([Step(name, true)], "")]) <==>
            forall k :: depth <= k < |leaf.path| ==> !NameMatches(leaf.path[k], name)
  {
    hide NameMatches, Excluded;
    var only := [Selector([Step(name, true)], "")];
    forall k: nat | depth <= k < |leaf.path| ensures Excluded(leaf.path[..k + 1], only) <==> NameMatches(leaf.path[k], name) {
      NameExcludes(leaf.path[..k + 1], name);
    }
    if Visible(leaf, depth + 1, only) {
      forall k: nat | depth <= k < |leaf.path| ensures !NameMatches(leaf.path[k], name) {
        assert !Excluded(leaf.path[..k + 1], only);
      }
    } else {
      var n: nat :| depth + 1 <= n <= |leaf.path| && Excluded(leaf.path[..n], only);
      assert Excluded(leaf.path[..(n - 1) + 1], only);
      assert NameMatches(leaf.path[n - 1], name);
    }
  }

  // ----- In which order matches are found -----

  /** An element comes before what is below it. */
  lemma ElementFirst(node: Node, above: seq<Name>)
    ensures Visits(node, above) == [Visit(node, above + [node.name])] + VisitsTo(node, |node.content|, above + [node.name])
  {
  }

  /** The elements below earlier content come first. */
  lemma {:induction false} EarlierFirst(node: Node, n: nat, m: nat, path: seq<Name>)
    requires n <= m <= |node.content|
    ensures VisitsTo(node, n, path) <= VisitsTo(node, m, path)
  {
    hide Visits;
    if n < m { EarlierFirst(node, n, m - 1, path); }
  }

  /** The values of matches, in the order of the matches; a match without text has none. */
  lemma {:induction false} ValuesInOrder(a: seq<Visit>, b: seq<Visit>, excludes: seq<Selector>, normalize: string -> string)
    ensures Values(a + b, excludes, normalize) == Values(a, excludes, normalize) + Values(b, excludes, normalize)
  {
    hide VisibleText, Leaves;
    if b == [] {
      assert a + b == a;
    } else {
      var all, front := a + b, b[..|b| - 1];
      assert all[..|all| - 1] == a + front && all[|all| - 1] == b[|b| - 1];
      ValuesInOrder(a, front, excludes, normalize);
    }
  }

  lemma ValueOfOne(v: Visit, excludes: seq<Selector>, normalize: string -> string)
    ensures var value := normalize(VisibleText(Leaves(v.node, v.path), |v.path|, excludes));
            Values([v], excludes, normalize) == if value == "" then [] else [value]
  {
    hide VisibleText, Leaves;
    assert [v][..0] == [];
  }
}
