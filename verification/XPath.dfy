/**
 The XPath subset of whole-file XML profiles: matching a path of element names
 against selector steps, and the text below a match without excluded subtrees.
 */
module XPath {
  import opened Prelude

  datatype Name = Name(space: string, local: string)

  /** `descendant` marks a step written after "//". */
  datatype Step = Step(name: string, descendant: bool)

  /** A parsed selector; a non-empty attribute is the part after "@". */
  datatype Selector = Selector(steps: seq<Step>, attribute: string)

  datatype Node = Node(name: Name, content: seq<Content>)

  datatype Content = Text(text: string) | Child(node: Node)

  function IndexOf(s: string, c: char): int {
    if s == [] then -1
    else if s[0] == c then 0
    else
      var rest := IndexOf(s[1..], c);
      if rest < 0 then -1 else rest + 1
  }

  lemma {:induction false} IndexOfRange(s: string, c: char)
    ensures -1 <= IndexOf(s, c) < |s| && (IndexOf(s, c) >= 0 ==> s[IndexOf(s, c)] == c)
  {
    if s != [] && s[0] != c { IndexOfRange(s[1..], c); }
  }

  /** xmlNameMatches: any name, a braced namespace with a local name, or a local name whose prefix is dropped. */
  predicate NameMatches(name: Name, selector: string) {
    IndexOfRange(selector, '}');
    IndexOfRange(selector, ':');
    if selector == "*" then true
    else if selector != "" && selector[0] == '{' then
      var end := IndexOf(selector, '}');
      end > 1 && name.space == selector[1..end] && name.local == selector[end + 1..]
    else
      var colon := IndexOf(selector, ':');
      name.local == if colon >= 0 then selector[colon + 1..] else selector
  }

  // ----- Matching -----

  /** A place for every step from position `from` on, the last of them at the end of the path. */
  predicate Placed(path: seq<Name>, steps: seq<Step>, places: seq<nat>, from: nat) {
    if steps == [] then places == [] && from == |path|
    else
      && places != [] && from <= places[0] < |path|
      && (steps[0].descendant || places[0] == from)
      && NameMatches(path[places[0]], steps[0].name)
      && Placed(path, steps[1..], places[1..], places[0] + 1)
  }

  ghost predicate Matches(path: seq<Name>, steps: seq<Step>, from: nat) {
    exists places: seq<nat> :: Placed(path, steps, places, from)
  }

  /** Reference reading: one name for each step, in order, child steps adjacent to what precedes them (the first to
      position `from`), descendant steps anywhere later, and the last step at the last name. */
  ghost predicate EmbeddingFrom(path: seq<Name>, steps: seq<Step>, places: seq<nat>, from: nat) {
    && |places| == |steps|
    && (forall k :: 0 <= k < |places| ==> places[k] < |path| && NameMatches(path[places[k]], steps[k].name))
    && (steps != [] ==> places[0] >= from && (!steps[0].descendant ==> places[0] == from))
    && (forall j, k :: 0 <= j && k == j + 1 < |places| ==>
          places[j] < places[k] && (!steps[k].descendant ==> places[k] == places[j] + 1))
    && (if steps == [] then from == |path| else places[|places| - 1] == |path| - 1)
  }

  /** An embedding of the steps into the whole path. */
  ghost predicate Embedding(path: seq<Name>, steps: seq<Step>, places: seq<nat>) { EmbeddingFrom(path, steps, places, 0) }

  lemma {:induction false} PlacedIsEmbedding(path: seq<Name>, steps: seq<Step>, places: seq<nat>, from: nat)
    requires from <= |path|
    ensures Placed(path, steps, places, from) <==> EmbeddingFrom(path, steps, places, from)
  {
    if steps != [] && places != [] && places[0] < |path| {
      PlacedIsEmbedding(path, steps[1..], places[1..], places[0] + 1);
      if Placed(path, steps, places, from) { PrependPlace(path, steps, places, from); }
      if EmbeddingFrom(path, steps, places, from) { DropPlace(path, steps, places, from); }
    }
  }

  lemma PrependPlace(path: seq<Name>, steps: seq<Step>, places: seq<nat>, from: nat)
    requires steps != [] && places != [] && from <= places[0] < |path|
    requires (steps[0].descendant || places[0] == from) && NameMatches(path[places[0]], steps[0].name)
    requires EmbeddingFrom(path, steps[1..], places[1..], places[0] + 1)
    ensures EmbeddingFrom(path, steps, places, from)
  {
    forall k | 0 <= k < |places| ensures places[k] < |path| && NameMatches(path[places[k]], steps[k].name) {
      if k > 0 { assert places[k] == places[1..][k - 1] && steps[k] == steps[1..][k - 1]; }
    }
    forall j, k | 0 <= j && k == j + 1 < |places|
      ensures places[j] < places[k] && (!steps[k].descendant ==> places[k] == places[j] + 1)
    {
      assert places[k] == places[1..][j] && steps[k] == steps[1..][j];
      if j > 0 { assert places[j] == places[1..][j - 1]; }
    }
  }

  lemma DropPlace(path: seq<Name>, steps: seq<Step>, places: seq<nat>, from: nat)
    requires steps != [] && places != [] && EmbeddingFrom(path, steps, places, from)
    ensures EmbeddingFrom(path, steps[1..], places[1..], places[0] + 1)
  {
    var rest, more := places[1..], steps[1..];
    forall k | 0 <= k < |rest| ensures rest[k] < |path| && NameMatches(path[rest[k]], more[k].name) {
      assert rest[k] == places[k + 1] && more[k] == steps[k + 1];
    }
    forall j, k | 0 <= j && k == j + 1 < |rest|
      ensures rest[j] < rest[k] && (!more[k].descendant ==> rest[k] == rest[j] + 1)
    {
      assert rest[j] == places[j + 1] && rest[k] == places[k + 1] && more[k] == steps[k + 1];
    }
    if more != [] { assert places[0] < places[1] && rest[0] == places[1]; }
  }

  /** xpathMatches' closure: try the places of one step, then the steps after it. */
  method MatchFrom(path: seq<Name>, steps: seq<Step>, pathPosition: nat, stepPosition: nat) returns (ok: bool)
    requires stepPosition <= |steps|
    ensures ok <==> Matches(path, steps[stepPosition..], pathPosition)
    decreases |steps| - stepPosition
  {
    var rest := steps[stepPosition..];
    if stepPosition == |steps| {
      assert pathPosition == |path| ==> Placed(path, rest, [], pathPosition);
      return pathPosition == |path|;
    }
    var step := steps[stepPosition];
    assert rest[0] == step && rest[1..] == steps[stepPosition + 1..];
    if step.descendant {
      var position := pathPosition;
      while position < |path|
        invariant pathPosition <= position
        invariant forall p :: pathPosition <= p < position ==> !FirstAt(path, rest, pathPosition, p)
      {
        if NameMatches(path[position], step.name) {
          var below := MatchFrom(path, steps, position + 1, stepPosition + 1);
          if below {
            FirstPlace(path, rest, pathPosition, position);
            return true;
          }
        }
        position := position + 1;
      }
      NoFirstPlace(path, rest, pathPosition);
      return false;
    }
    ok := false;
    if pathPosition < |path| && NameMatches(path[pathPosition], step.name) {
      ok := MatchFrom(path, steps, pathPosition + 1, stepPosition + 1);
    }
    if ok {
      FirstPlace(path, rest, pathPosition, pathPosition);
    } else {
      assert forall p: nat :: !FirstAt(path, rest, pathPosition, p);
      NoFirstPlace(path, rest, pathPosition);
    }
  }

  /** The first step can be at p, and the others after it. */
  ghost predicate FirstAt(path: seq<Name>, steps: seq<Step>, from: nat, p: nat) {
    && steps != [] && from <= p < |path| && (steps[0].descendant || p == from)
    && NameMatches(path[p], steps[0].name) && Matches(path, steps[1..], p + 1)
  }

  lemma FirstPlace(path: seq<Name>, steps: seq<Step>, from: nat, p: nat)
    requires FirstAt(path, steps, from, p)
    ensures Matches(path, steps, from)
  {
    var rest: seq<nat> :| Placed(path, steps[1..], rest, p + 1);
    assert ([p] + rest)[1..] == rest;
    assert Placed(path, steps, [p] + rest, from);
  }

  lemma PlacedFirst(path: seq<Name>, steps: seq<Step>, places: seq<nat>, from: nat)
    requires steps != [] && Placed(path, steps, places, from)
    ensures FirstAt(path, steps, from, places[0])
  {
    assert Placed(path, steps[1..], places[1..], places[0] + 1);
  }

  lemma NoFirstPlace(path: seq<Name>, steps: seq<Step>, from: nat)
    requires steps != [] && forall p: nat :: from <= p < |path| ==> !FirstAt(path, steps, from, p)
    ensures !Matches(path, steps, from)
  {
    forall places: seq<nat> ensures !Placed(path, steps, places, from) {
      if Placed(path, steps, places, from) { PlacedFirst(path, steps, places, from); }
    }
  }

  method XPathMatches(path: seq<Name>, steps: seq<Step>) returns (ok: bool)
    ensures ok <==> exists places: seq<nat> :: Embedding(path, steps, places)
  {
    assert steps[0..] == steps;
    ok := MatchFrom(path, steps, 0, 0);
    MatchesMeaning(path, steps);
  }

  lemma MatchesMeaning(path: seq<Name>, steps: seq<Step>)
    ensures Matches(path, steps, 0) <==> exists places: seq<nat> :: Embedding(path, steps, places)
  {
    forall places: seq<nat> ensures Placed(path, steps, places, 0) <==> Embedding(path, steps, places) {
      PlacedIsEmbedding(path, steps, places, 0);
    }
  }

  // ----- Text below a match -----

  /** xmlExcluded: some element selector among the exclusions matches the path. */
  ghost predicate Excluded(path: seq<Name>, excludes: seq<Selector>) {
    exists e :: e in excludes && e.attribute == "" && Matches(path, e.steps, 0)
  }

  method IsExcluded(path: seq<Name>, excludes: seq<Selector>) returns (excluded: bool)
    ensures excluded <==> Excluded(path, excludes)
  {
    for i := 0 to |excludes|
      invariant !Excluded(path, excludes[..i])
    {
      assert excludes[i] in excludes && excludes[..i + 1] == excludes[..i] + [excludes[i]];
      if excludes[i].attribute == "" {
        assert excludes[i].steps[0..] == excludes[i].steps;
        var matched := MatchFrom(path, excludes[i].steps, 0, 0);
        if matched {
          return true;
        }
      }
    }
    assert excludes[..|excludes|] == excludes;
    excluded := false;
  }

  /** A piece of character data with the names of the elements around it. */
  datatype Leaf = Leaf(path: seq<Name>, text: string)

  /** All character data below a node, in document order. */
  function Leaves(node: Node, path: seq<Name>): seq<Leaf>
    decreases node, |node.content| + 1
  {
    LeavesTo(node, |node.content|, path)
  }

  /** The same for the first n pieces of the node's content. */
  function LeavesTo(node: Node, n: nat, path: seq<Name>): seq<Leaf>
    requires n <= |node.content|
    decreases node, n
  {
    if n == 0 then [] else LeavesTo(node, n - 1, path) + PieceLeaves(node, n - 1, path)
  }

  function PieceLeaves(node: Node, i: nat, path: seq<Name>): seq<Leaf>
    requires i < |node.content|
    decreases node, i
  {
    match node.content[i]
    case Text(text) => [Leaf(path, text)]
    case Child(child) => Leaves(child, path + [child.name])
  }

  /** No element from depth `from` down to the leaf is excluded. */
  ghost predicate Visible(leaf: Leaf, from: nat, excludes: seq<Selector>) {
    forall n: nat :: from <= n <= |leaf.path| ==> !Excluded(leaf.path[..n], excludes)
  }

  ghost function VisibleText(leaves: seq<Leaf>, from: nat, excludes: seq<Selector>): string {
    if leaves == [] then ""
    else
      var last := leaves[|leaves| - 1];
      VisibleText(leaves[..|leaves| - 1], from, excludes) + if Visible(last, from, excludes) then last.text else ""
  }

  lemma {:induction false} VisibleConcat(a: seq<Leaf>, b: seq<Leaf>, from: nat, excludes: seq<Selector>)
    ensures VisibleText(a + b, from, excludes) == VisibleText(a, from, excludes) + VisibleText(b, from, excludes)
  {
    hide Visible;
    if b == [] {
      assert a + b == a;
    } else {
      var all, front := a + b, b[..|b| - 1];
      assert all[..|all| - 1] == a + front && all[|all| - 1] == b[|b| - 1];
      VisibleConcat(a, front, from, excludes);
    }
  }

  ghost predicate AllBelow(leaves: seq<Leaf>, path: seq<Name>) { forall i :: 0 <= i < |leaves| ==> path <= leaves[i].path }

  lemma {:induction false} LeavesBelow(node: Node, n: nat, path: seq<Name>)
    requires n <= |node.content|
    ensures AllBelow(LeavesTo(node, n, path), path)
    decreases node, n
  {
    if n > 0 {
      LeavesBelow(node, n - 1, path);
      match node.content[n - 1]
      case Text(_) =>
      case Child(child) =>
        LeavesBelow(child, |child.content|, path + [child.name]);
        ParentIsAbove(Leaves(child, path + [child.name]), path, child.name);
    }
  }

  lemma ParentIsAbove(leaves: seq<Leaf>, path: seq<Name>, name: Name)
    requires AllBelow(leaves, path + [name])
    ensures AllBelow(leaves, path)
  {
    forall i | 0 <= i < |leaves| ensures path <= leaves[i].path {
      assert leaves[i].path[..|path| + 1] == path + [name];
    }
  }

  /** Below an excluded element nothing is visible. */
  lemma {:induction false} NothingVisible(leaves: seq<Leaf>, path: seq<Name>, from: nat, excludes: seq<Selector>)
    requires from <= |path| && Excluded(path, excludes)
    requires AllBelow(leaves, path)
    ensures VisibleText(leaves, from, excludes) == ""
  {
    if leaves != [] {
      NothingVisible(leaves[..|leaves| - 1], path, from, excludes);
      var last := leaves[|leaves| - 1];
      assert last.path[..|path|] == path;
    }
  }

  /** Below an element that is not excluded, looking from it or from one level further down is the same. */
  lemma {:induction false} VisibleDeeper(leaves: seq<Leaf>, path: seq<Name>, excludes: seq<Selector>)
    requires !Excluded(path, excludes) && AllBelow(leaves, path)
    ensures VisibleText(leaves, |path|, excludes) == VisibleText(leaves, |path| + 1, excludes)
  {
    if leaves != [] {
      VisibleDeeper(leaves[..|leaves| - 1], path, excludes);
      var last := leaves[|leaves| - 1];
      assert last.path[..|path|] == path;
      assert Visible(last, |path|, excludes) <==> Visible(last, |path| + 1, excludes);
    }
  }

  /** xmlNodeText: the document-order text below the node, less every excluded subtree. */
  method NodeText(node: Node, path: seq<Name>, excludes: seq<Selector>) returns (text: string)
    ensures text == VisibleText(Leaves(node, path), |path|, excludes)
    decreases node
  {
    var excluded := IsExcluded(path, excludes);
    if excluded {
      LeavesBelow(node, |node.content|, path);
      NothingVisible(Leaves(node, path), path, |path|, excludes);
      return "";
    }
    text := "";
    for i := 0 to |node.content|
      invariant text == VisibleText(LeavesTo(node, i, path), |path|, excludes)
    {
      VisibleConcat(LeavesTo(node, i, path), PieceLeaves(node, i, path), |path|, excludes);
      match node.content[i]
      case Text(piece) =>
        OneLeaf(Leaf(path, piece), path, excludes);
        text := text + piece;
      case Child(child) =>
        ChildLeaves(child, path, excludes);
        var piece := NodeText(child, path + [child.name], excludes);
        text := text + piece;
    }
  }

  lemma OneLeaf(leaf: Leaf, path: seq<Name>, excludes: seq<Selector>)
    requires leaf.path == path && !Excluded(path, excludes)
    ensures VisibleText([leaf], |path|, excludes) == leaf.text
  {
    assert path[..|path|] == path && [leaf][..0] == [];
    assert VisibleText([leaf], |path|, excludes) == VisibleText([], |path|, excludes) + leaf.text;
  }

  lemma ChildLeaves(child: Node, path: seq<Name>, excludes: seq<Selector>)
    requires !Excluded(path, excludes)
    ensures var below := path + [child.name];
            VisibleText(Leaves(child, below), |path|, excludes) == VisibleText(Leaves(child, below), |below|, excludes)
  {
    var below := path + [child.name];
    LeavesBelow(child, |child.content|, below);
    ParentIsAbove(Leaves(child, below), path, child.name);
    VisibleDeeper(Leaves(child, below), path, excludes);
  }

  // ----- All matches of a selector -----

  datatype Visit = Visit(node: Node, path: seq<Name>)

  /** The elements from a node down, each before its children. */
  function Visits(node: Node, above: seq<Name>): seq<Visit>
    decreases node, |node.content| + 1
  {
    [Visit(node, above + [node.name])] + VisitsTo(node, |node.content|, above + [node.name])
  }

  function VisitsTo(node: Node, n: nat, path: seq<Name>): seq<Visit>
    requires n <= |node.content|
    decreases node, n
  {
    if n == 0 then []
    else
      var last := node.content[n - 1];
      VisitsTo(node, n - 1, path) + if last.Child? then Visits(last.node, path) else []
  }

  ghost function Matching(visits: seq<Visit>, steps: seq<Step>): seq<Visit> {
    if visits == [] then []
    else
      var last := visits[|visits| - 1];
      Matching(visits[..|visits| - 1], steps) + if Matches(last.path, steps, 0) then [last] else []
  }

  lemma {:induction false} MatchingConcat(a: seq<Visit>, b: seq<Visit>, steps: seq<Step>)
    ensures Matching(a + b, steps) == Matching(a, steps) + Matching(b, steps)
  {
    if b == [] {
      assert a + b == a;
    } else {
      var all, front := a + b, b[..|b| - 1];
      assert all[..|all| - 1] == a + front && all[|all| - 1] == b[|b| - 1];
      MatchingConcat(a, front, steps);
    }
  }

  lemma MatchingOne(v: Visit, steps: seq<Step>)
    ensures Matching([v], steps) == if Matches(v.path, steps, 0) then [v] else []
  {
    hide Matches;
    assert [v][..0] == [];
  }

  lemma VisitsStep(node: Node, i: nat, path: seq<Name>, steps: seq<Step>)
    requires i < |node.content|
    ensures Matching(VisitsTo(node, i + 1, path), steps) ==
            Matching(VisitsTo(node, i, path), steps)
            + if node.content[i].Child? then Matching(Visits(node.content[i].node, path), steps) else []
  {
    hide Matches, Visits;
    if node.content[i].Child? {
      MatchingConcat(VisitsTo(node, i, path), Visits(node.content[i].node, path), steps);
    } else {
      assert VisitsTo(node, i, path) + [] == VisitsTo(node, i, path);
    }
  }

  lemma VisitsNone(node: Node, path: seq<Name>, steps: seq<Step>)
    ensures Matching(VisitsTo(node, 0, path), steps) == []
  {
  }

  /** The walk of xmlSelectorValues over the tree. */
  method Walk(node: Node, above: seq<Name>, steps: seq<Step>) returns (matches: seq<Visit>)
    ensures matches == Matching(Visits(node, above), steps)
    decreases node
  {
    hide Matching, Matches, VisitsTo;
    var path := above + [node.name];
    assert steps[0..] == steps;
    var here := MatchFrom(path, steps, 0, 0);
    matches := if here then [Visit(node, path)] else [];
    MatchingOne(Visit(node, path), steps);
    VisitsNone(node, path, steps);
    for i := 0 to |node.content|
      invariant matches == Matching([Visit(node, path)], steps) + Matching(VisitsTo(node, i, path), steps)
    {
      VisitsStep(node, i, path, steps);
      if node.content[i].Child? {
        var more := Walk(node.content[i].node, path, steps);
        matches := matches + more;
      }
    }
    MatchingConcat([Visit(node, path)], VisitsTo(node, |node.content|, path), steps);
  }

  ghost function Values(matches: seq<Visit>, excludes: seq<Selector>, normalize: string -> string): seq<string> {
    if matches == [] then []
    else
      var last := matches[|matches| - 1];
      var value := normalize(VisibleText(Leaves(last.node, last.path), |last.path|, excludes));
      Values(matches[..|matches| - 1], excludes, normalize) + if value == "" then [] else [value]
  }

  /** xmlSelectorValues for an element selector: the non-empty normalized texts of all matches in document order. */
  method SelectorValues(root: Node, steps: seq<Step>, excludes: seq<Selector>, normalize: string -> string)
    returns (values: seq<string>)
    ensures values == Values(Matching(Visits(root, []), steps), excludes, normalize)
  {
    hide Matching, Visits, VisibleText, Leaves;
    var matches := Walk(root, [], steps);
    values := [];
    for i := 0 to |matches|
      invariant values == Values(matches[..i], excludes, normalize)
    {
      assert matches[..i + 1][..i] == matches[..i];
      var text := NodeText(matches[i].node, matches[i].path, excludes);
      var value := normalize(text);
      if value != "" {
        values := values + [value];
      }
    }
    assert matches[..|matches|] == matches;
  }
}
