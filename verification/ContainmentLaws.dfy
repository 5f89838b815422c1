/** What the containment walk computes: scopes are ancestors, and the last node on a symbol's
    line decides its parent. */
module ContainmentLaws {
  import opened Options
  import opened TreeCursor
  import opened Containment

  // ----- The stack holds the named containers on the way to the node -----

  /** The named containers among a node and its ancestors, outermost first. */
  function Along(t: Syntax, p: Path): seq<Scope>
    requires IsPath(t, p)
  {
    OwnScope(t.node) + if p == [] then [] else Along(t.children[p[0]], p[1..])
  }

  /** The visits are the nodes in document order, each with the containers on the way to it. */
  lemma {:induction false} StackIsAncestors(t: Syntax, scopes: seq<Scope>, p: Path, k: nat)
    requires k < |Paths(t, p)|
    ensures |VisitsOf(t, scopes)| == |Paths(t, p)|
    ensures var q := Paths(t, p)[k];
            && |q| >= |p| && IsPath(t, q[|p|..])
            && VisitsOf(t, scopes)[k] == Visit(At(t, q[|p|..]).node, scopes + Along(t, q[|p|..]))
    decreases t, |t.children| + 1
  {
    SameCount(t, scopes, p);
    if k > 0 {
      ChildrenStackIsAncestors(t, scopes + OwnScope(t.node), p, 0, k - 1);
      var q := Paths(t, p)[k];
      assert scopes + OwnScope(t.node) + Along(t.children[q[|p|]], q[|p| + 1..]) == scopes + Along(t, q[|p|..]) by {
        assert q[|p|..][1..] == q[|p| + 1..];
      }
    }
  }

  lemma {:induction false} ChildrenStackIsAncestors(t: Syntax, inner: seq<Scope>, p: Path, i: nat, k: nat)
    requires i <= |t.children| && k < |ChildrenPaths(t, p, i)|
    ensures |VisitsFrom(t, inner, i)| == |ChildrenPaths(t, p, i)|
    ensures var q := ChildrenPaths(t, p, i)[k];
            && |q| > |p| && IsPath(t, q[|p|..])
            && VisitsFrom(t, inner, i)[k]
               == Visit(At(t, q[|p|..]).node, inner + Along(t.children[q[|p|]], q[|p| + 1..]))
    decreases t, |t.children| - i
  {
    ChildrenSameCount(t, inner, p, i);
    var first := Paths(t.children[i], p + [i]);
    SameCount(t.children[i], inner, p + [i]);
    var q := ChildrenPaths(t, p, i)[k];
    if k < |first| {
      StackIsAncestors(t.children[i], inner, p + [i], k);
      PathsAreAll(t.children[i], p + [i]);
      assert q == first[k] && q in first;
      ThroughChild(t, p, i, q);
      assert q[|p|..][1..] == q[|p| + 1..] && q[|p|..][0] == i;
    } else {
      ChildrenStackIsAncestors(t, inner, p, i + 1, k - |first|);
    }
  }

  lemma {:induction false} SameCount(t: Syntax, scopes: seq<Scope>, p: Path)
    ensures |VisitsOf(t, scopes)| == |Paths(t, p)|
    decreases t, |t.children| + 1
  {
    ChildrenSameCount(t, scopes + OwnScope(t.node), p, 0);
  }

  lemma {:induction false} ChildrenSameCount(t: Syntax, inner: seq<Scope>, p: Path, i: nat)
    requires i <= |t.children|
    ensures |VisitsFrom(t, inner, i)| == |ChildrenPaths(t, p, i)|
    decreases t, |t.children| - i
  {
    if i < |t.children| {
      SameCount(t.children[i], inner, p + [i]);
      ChildrenSameCount(t, inner, p, i + 1);
    }
  }

  // ----- Nested spans -----

  /** Every node's rows lie within its parent's. */
  predicate Nested(t: Syntax)
    decreases t
  {
    && t.node.row <= t.node.endRow
    && forall i | 0 <= i < |t.children| ::
         && t.node.row <= t.children[i].node.row && t.children[i].node.endRow <= t.node.endRow
         && Nested(t.children[i])
  }

  lemma {:induction false} DescendantsAreWithin(t: Syntax, p: Path)
    requires Nested(t) && IsPath(t, p)
    ensures t.node.row <= At(t, p).node.row <= At(t, p).node.endRow <= t.node.endRow
    decreases |p|
  {
    if p != [] {
      DescendantsAreWithin(t.children[p[0]], p[1..]);
    }
  }

  /** Every scope on the stack reaches from above the node down to it or below. */
  lemma {:induction false} ScopesReach(t: Syntax, p: Path, i: nat)
    requires Nested(t) && IsPath(t, p) && i < |Along(t, p)|
    ensures Along(t, p)[i].row <= At(t, p).node.row <= Along(t, p)[i].endRow
    decreases |p|
  {
    DescendantsAreWithin(t, p);
    var own := |OwnScope(t.node)|;
    if i >= own {
      ScopesReach(t.children[p[0]], p[1..], i - own);
    }
  }

  /** The innermost scope with another name. */
  function Innermost(scopes: seq<Scope>, name: string): Option<string> {
    if scopes == [] then None
    else
      var top := scopes[|scopes| - 1];
      if top.name != name then Some(top.name) else Innermost(scopes[..|scopes| - 1], name)
  }

  /** With nested spans the row test never fails. */
  lemma {:induction false} RowTestPasses(scopes: seq<Scope>, name: string, row: nat)
    requires forall i | 0 <= i < |scopes| :: row <= scopes[i].endRow
    ensures Enclosing(scopes, name, row) == Innermost(scopes, name)
  {
    if scopes != [] {
      RowTestPasses(scopes[..|scopes| - 1], name, row);
    }
  }

  // ----- Which visit decides -----

  /** The parent a visit assigns to the symbol, if any. */
  function ParentFrom(sym: Symbol, v: Visit): Option<string> {
    if sym.line == v.node.row then Enclosing(v.scopes, sym.name, v.node.row) else None
  }

  function DocFrom(sym: Symbol, v: Visit): Option<string> {
    if sym.line == v.node.row then v.node.doc else None
  }

  /** The last visit that assigns a parent decides; without one, the parent stays. */
  lemma {:induction false} LastParentWins(sym: Symbol, visits: seq<Visit>, k: nat)
    requires k <= |visits| && forall j | k <= j < |visits| :: ParentFrom(sym, visits[j]).None?
    ensures k > 0 && ParentFrom(sym, visits[k - 1]).Some? ==>
              AssignAll(sym, visits).parent == ParentFrom(sym, visits[k - 1])
    ensures k == 0 ==> AssignAll(sym, visits).parent == sym.parent
    decreases |visits|
  {
    if visits != [] {
      var sym' := Assign(sym, visits[0]);
      assert forall j | 0 <= j < |visits| - 1 :: ParentFrom(sym', visits[1..][j]) == ParentFrom(sym, visits[j + 1]);
      LastParentWins(sym', visits[1..], if k == 0 then 0 else k - 1);
    }
  }

  /** The first visit with a doc comment decides, unless the symbol has one already. */
  lemma {:induction false} FirstDocWins(sym: Symbol, visits: seq<Visit>, k: nat)
    requires k <= |visits| && forall j | 0 <= j < k :: DocFrom(sym, visits[j]).None?
    ensures sym.doc.Some? ==> AssignAll(sym, visits).doc == sym.doc
    ensures sym.doc.None? && k < |visits| && DocFrom(sym, visits[k]).Some? ==>
              AssignAll(sym, visits).doc == DocFrom(sym, visits[k])
    ensures sym.doc.None? && k == |visits| ==> AssignAll(sym, visits).doc == None
    decreases |visits|
  {
    if visits != [] {
      var sym' := Assign(sym, visits[0]);
      assert forall j | 0 <= j < |visits| - 1 :: DocFrom(sym', visits[1..][j]) == DocFrom(sym, visits[j + 1]);
      FirstDocWins(sym', visits[1..], if k == 0 then 0 else k - 1);
    }
  }

  // ----- A symbol's final parent -----

  /** What the node at position `q` says about the symbol's parent. */
  function ParentAt(root: Syntax, sym: Symbol, q: Path): Option<string>
    requires IsPath(root, q)
  {
    if At(root, q).node.row == sym.line then Innermost(Along(root, q), sym.name) else None
  }

  lemma VisitSaysParent(root: Syntax, sym: Symbol, k: nat)
    requires Nested(root) && k < |Paths(root, [])|
    ensures |VisitsOf(root, [])| == |Paths(root, [])| && IsPath(root, Paths(root, [])[k])
    ensures ParentFrom(sym, VisitsOf(root, [])[k]) == ParentAt(root, sym, Paths(root, [])[k])
  {
    hide Paths, VisitsOf, Nested, Along;
    var q := Paths(root, [])[k];
    StackIsAncestors(root, [], [], k);
    assert q[0..] == q;
    forall i | 0 <= i < |Along(root, q)|
      ensures At(root, q).node.row <= Along(root, q)[i].endRow
    {
      ScopesReach(root, q, i);
    }
    RowTestPasses(Along(root, q), sym.name, At(root, q).node.row);
    assert [] + Along(root, q) == Along(root, q);
  }

  /** For nested spans: a symbol's final parent is the innermost differently named container of
      the last node, in document order, that is on its line and has one. */
  lemma FinalParent(root: Syntax, sym: Symbol, q: Path)
    requires Nested(root) && IsPath(root, q) && ParentAt(root, sym, q).Some?
    requires forall other: Path | IsPath(root, other) && Before(q, other) :: ParentAt(root, sym, other).None?
    ensures AssignAll(sym, VisitsOf(root, [])).parent == ParentAt(root, sym, q)
  {
    hide Nested, ParentAt, ParentFrom, VisitsOf, AssignAll, Before, Paths, IsPath;
    var paths, visits := Paths(root, []), VisitsOf(root, []);
    PathsAreAll(root, []);
    assert q[0..] == q;
    var k :| 0 <= k < |paths| && paths[k] == q;
    VisitSaysParent(root, sym, k);
    forall j | k < j < |visits|
      ensures ParentFrom(sym, visits[j]).None?
    {
      VisitSaysParent(root, sym, j);
      PathsAreOrdered(root, [], k, j);
    }
    LastParentWins(sym, visits, k + 1);
  }

  /** If no node on its line has one, the parent stays as it was. */
  lemma NoParentFound(root: Syntax, sym: Symbol)
    requires Nested(root)
    requires forall q: Path | IsPath(root, q) :: ParentAt(root, sym, q).None?
    ensures AssignAll(sym, VisitsOf(root, [])).parent == sym.parent
  {
    hide Nested, ParentAt, ParentFrom, VisitsOf, AssignAll, Paths, IsPath;
    var paths, visits := Paths(root, []), VisitsOf(root, []);
    SameCount(root, [], []);
    forall j | 0 <= j < |visits|
      ensures ParentFrom(sym, visits[j]).None?
    {
      VisitSaysParent(root, sym, j);
    }
    LastParentWins(sym, visits, 0);
  }

  /** The number of visits up to the last one that assigns a parent. */
  lemma {:induction false} LastAssigning(sym: Symbol, visits: seq<Visit>) returns (k: nat)
    ensures k <= |visits| && forall j | k <= j < |visits| :: ParentFrom(sym, visits[j]).None?
    ensures k > 0 ==> ParentFrom(sym, visits[k - 1]).Some?
    decreases |visits|
  {
    hide ParentFrom;
    var n := |visits|;
    if n == 0 || ParentFrom(sym, visits[n - 1]).Some? {
      k := n;
    } else {
      k := LastAssigning(sym, visits[..n - 1]);
    }
  }

  /** When the nodes on a symbol's line agree, their container is its parent: if some node on
      the line has one, and every node on the line has that one or none. */
  lemma AgreedParent(root: Syntax, sym: Symbol, q: Path)
    requires Nested(root) && IsPath(root, q) && ParentAt(root, sym, q).Some?
    requires forall other: Path | IsPath(root, other) && ParentAt(root, sym, other).Some? ::
               ParentAt(root, sym, other) == ParentAt(root, sym, q)
    ensures AssignAll(sym, VisitsOf(root, [])).parent == ParentAt(root, sym, q)
  {
    hide Nested, ParentAt, ParentFrom, VisitsOf, AssignAll, Paths, IsPath;
    var paths, visits := Paths(root, []), VisitsOf(root, []);
    PathsAreAll(root, []);
    assert q[0..] == q;
    var i :| 0 <= i < |paths| && paths[i] == q;
    VisitSaysParent(root, sym, i);
    var k := LastAssigning(sym, visits);
    VisitSaysParent(root, sym, k - 1);
    LastParentWins(sym, visits, k);
  }

  /** The node at `q` is the last one, in document order, that assigns the symbol a parent. */
  ghost predicate Decides(root: Syntax, sym: Symbol, q: Path) {
    && IsPath(root, q) && ParentAt(root, sym, q).Some?
    && forall other: Path | IsPath(root, other) && Before(q, other) :: ParentAt(root, sym, other).None?
  }

  ghost predicate NobodyDecides(root: Syntax, sym: Symbol) {
    forall q: Path | IsPath(root, q) :: ParentAt(root, sym, q).None?
  }

  /** Some node decides, unless no node assigns a parent. */
  lemma SomebodyDecides(root: Syntax, sym: Symbol) returns (q: Path)
    requires Nested(root)
    ensures Decides(root, sym, q) || NobodyDecides(root, sym)
  {
    hide Nested, ParentAt, ParentFrom, VisitsOf, AssignAll, Paths, IsPath, Before;
    var paths, visits := Paths(root, []), VisitsOf(root, []);
    SameCount(root, [], []);
    PathsAreAll(root, []);
    var k := LastAssigning(sym, visits);
    q := [];
    if k > 0 {
      q := paths[k - 1];
      VisitSaysParent(root, sym, k - 1);
    }
    forall other: Path | IsPath(root, other) && (k == 0 || Before(q, other))
      ensures ParentAt(root, sym, other).None?
    {
      assert other[0..] == other;
      var j :| 0 <= j < |paths| && paths[j] == other;
      VisitSaysParent(root, sym, j);
      if j + 1 < k {
        PathsAreOrdered(root, [], j, k - 1);
        NotBothBefore(other, q);
      } else if j + 1 == k {
        NotBothBefore(q, q);
      }
    }
  }

  lemma {:induction false} NotBothBefore(p: Path, q: Path)
    ensures !(Before(p, q) && Before(q, p))
    decreases |p|
  {
    if p != [] && q != [] {
      NotBothBefore(p[1..], q[1..]);
    }
  }

  /** A symbol gets the parent that its own node stands for, if and only if the deciding node
      stands for the same one; or no node assigns any, and the symbol had none before. */
  lemma ParentIsOwnIff(root: Syntax, sym: Symbol, own: Path)
    requires Nested(root) && IsPath(root, own)
    ensures AssignAll(sym, VisitsOf(root, [])).parent == ParentAt(root, sym, own)
            <==> || (exists q: Path :: Decides(root, sym, q) && ParentAt(root, sym, q) == ParentAt(root, sym, own))
                 || (NobodyDecides(root, sym) && sym.parent == None)
  {
    hide Nested, ParentAt, VisitsOf, AssignAll, IsPath, Before;
    forall q: Path | Decides(root, sym, q)
      ensures AssignAll(sym, VisitsOf(root, [])).parent == ParentAt(root, sym, q)
    {
      FinalParent(root, sym, q);
    }
    var q := SomebodyDecides(root, sym);
    if NobodyDecides(root, sym) {
      NoParentFound(root, sym);
    }
  }

  function DocAt(root: Syntax, sym: Symbol, q: Path): Option<string>
    requires IsPath(root, q)
  {
    if At(root, q).node.row == sym.line then At(root, q).node.doc else None
  }

  lemma VisitSaysDoc(root: Syntax, sym: Symbol, k: nat)
    requires k < |Paths(root, [])|
    ensures |VisitsOf(root, [])| == |Paths(root, [])| && IsPath(root, Paths(root, [])[k])
    ensures DocFrom(sym, VisitsOf(root, [])[k]) == DocAt(root, sym, Paths(root, [])[k])
  {
    hide Paths, VisitsOf, Along;
    var q := Paths(root, [])[k];
    StackIsAncestors(root, [], [], k);
    assert q[0..] == q;
  }

  /** A symbol without a doc comment gets that of the first node on its line that has one. */
  lemma FinalDoc(root: Syntax, sym: Symbol, q: Path)
    requires sym.doc.None? && IsPath(root, q) && DocAt(root, sym, q).Some?
    requires forall other: Path | IsPath(root, other) && Before(other, q) :: DocAt(root, sym, other).None?
    ensures AssignAll(sym, VisitsOf(root, [])).doc == DocAt(root, sym, q)
  {
    hide DocAt, DocFrom, VisitsOf, AssignAll, Before, Paths, IsPath;
    var paths, visits := Paths(root, []), VisitsOf(root, []);
    PathsAreAll(root, []);
    assert q[0..] == q;
    var k :| 0 <= k < |paths| && paths[k] == q;
    VisitSaysDoc(root, sym, k);
    forall j | 0 <= j < k
      ensures DocFrom(sym, visits[j]).None?
    {
      VisitSaysDoc(root, sym, j);
      PathsAreOrdered(root, [], j, k);
    }
    FirstDocWins(sym, visits, k);
  }

  /** Two classes on one line: the first one's symbol gets the second one for its parent. */
  lemma NeighbourBecomesParent(a: string, b: string)
    requires a != b
    ensures var left := Tree(SyntaxNode(true, Some(a), 1, 1, None), []);
            var right := Tree(SyntaxNode(true, Some(b), 1, 1, None), []);
            var root := Tree(SyntaxNode(false, None, 1, 1, None), [left, right]);
            && Innermost(Along(root, [0]), a) == None
            && AssignAll(Symbol(a, 1, None, None, ""), VisitsOf(root, [])).parent == Some(b)
  {
    var left := Tree(SyntaxNode(true, Some(a), 1, 1, None), []);
    var right := Tree(SyntaxNode(true, Some(b), 1, 1, None), []);
    var root := Tree(SyntaxNode(false, None, 1, 1, None), [left, right]);
    var sym := Symbol(a, 1, None, None, "");
    assert root.children[0] == left && root.children[1] == right;
    PairVisits(root);
    LeafVisits(right, []);
    assert Along(root, [0]) == [Scope(a, 1, 1)] by {
      AlongLeaf(root, left);
    }
    var v := VisitsOf(root, []);
    var last := Visit(right.node, [Scope(b, 1, 1)]);
    hide VisitsOf, VisitsFrom, Along, AssignAll;
    assert [] + OwnScope(right.node) == [Scope(b, 1, 1)];
    assert v[|v| - 1] == last;
    assert Enclosing([Scope(b, 1, 1)], a, 1) == Some(b);
    LastParentWins(sym, v, |v|);
  }

  lemma AlongLeaf(root: Syntax, leaf: Syntax)
    requires |root.children| > 0 && root.children[0] == leaf && OwnScope(root.node) == []
    ensures IsPath(root, [0]) && Along(root, [0]) == OwnScope(leaf.node)
  {
    assert [0][1..] == [];
    assert Along(leaf, []) == OwnScope(leaf.node) + [];
  }

  lemma LeafVisits(t: Syntax, scopes: seq<Scope>)
    requires t.children == []
    ensures VisitsOf(t, scopes) == [Visit(t.node, scopes + OwnScope(t.node))]
  {
    assert VisitsFrom(t, scopes + OwnScope(t.node), 0) == [];
  }

  lemma PairVisits(t: Syntax)
    requires |t.children| == 2 && OwnScope(t.node) == []
    ensures VisitsOf(t, []) == [Visit(t.node, [])] + VisitsOf(t.children[0], []) + VisitsOf(t.children[1], [])
  {
    assert [] + OwnScope(t.node) == [];
    assert VisitsFrom(t, [], 2) == [];
    assert VisitsFrom(t, [], 1) == VisitsOf(t.children[1], []) + [];
    assert VisitsFrom(t, [], 0) == VisitsOf(t.children[0], []) + VisitsFrom(t, [], 1);
  }

  // ----- Told on the nodes -----

  /** The nodes at the prefixes of `q` up to length `k` that are containers with a name, outermost
      first. */
  function Containers(root: Syntax, q: Path, k: nat): seq<Scope>
    requires IsPath(root, q) && k <= |q|
  {
    PrefixesArePaths(root, q, k);
    var node := At(root, q[..k]).node;
    (if k == 0 then [] else Containers(root, q, k - 1))
    + ContainerScope(node)
  }

  function ContainerScope(node: SyntaxNode): seq<Scope> {
    match node.name
    case Some(name) => if node.container then [Scope(name, node.row, node.endRow)] else []
    case None => []
  }

  lemma {:induction false} PrefixesArePaths(root: Syntax, q: Path, k: nat)
    requires IsPath(root, q) && k <= |q|
    ensures IsPath(root, q[..k])
    decreases |q|
  {
    if k > 0 {
      PrefixesArePaths(root.children[q[0]], q[1..], k - 1);
      assert q[..k][1..] == q[1..][..k - 1];
    }
  }

  /** The node at the first `k` steps of the path. */
  function NodeAt(root: Syntax, q: Path, k: nat): SyntaxNode
    requires IsPath(root, q) && k <= |q|
  {
    PrefixesArePaths(root, q, k);
    At(root, q[..k]).node
  }

  lemma ContainersStep(root: Syntax, q: Path, k: nat)
    requires IsPath(root, q) && k <= |q|
    ensures var node := NodeAt(root, q, k);
            var outer := if k == 0 then [] else Containers(root, q, k - 1);
            Containers(root, q, k) == outer + ContainerScope(node)
  {
    hide IsPath, At;
  }

  lemma NodeBelow(root: Syntax, q: Path, k: nat)
    requires IsPath(root, q) && 0 < k <= |q|
    ensures IsPath(root.children[q[0]], q[1..]) && NodeAt(root, q, k) == NodeAt(root.children[q[0]], q[1..], k - 1)
  {
    assert q[..k][1..] == q[1..][..k - 1];
  }

  lemma {:induction false} ContainersBelow(root: Syntax, q: Path, k: nat)
    requires IsPath(root, q) && 0 < k <= |q|
    ensures IsPath(root.children[q[0]], q[1..])
    ensures Containers(root, q, k) == Containers(root, q, 0) + Containers(root.children[q[0]], q[1..], k - 1)
    decreases k
  {
    NodeBelow(root, q, k);
    ContainersStep(root, q, k);
    ContainersStep(root.children[q[0]], q[1..], k - 1);
    hide Containers, NodeAt, ContainerScope;
    if k > 1 {
      ContainersBelow(root, q, k - 1);
    }
  }

  lemma {:induction false} AlongIsContainers(root: Syntax, q: Path)
    requires IsPath(root, q)
    ensures Along(root, q) == Containers(root, q, |q|)
    decreases |q|
  {
    FirstContainer(root, q);
    AlongUnfolds(root, q);
    if q != [] {
      AlongIsContainers(root.children[q[0]], q[1..]);
      ContainersBelow(root, q, |q|);
      hide Along, Containers;
    }
  }

  lemma AlongUnfolds(root: Syntax, q: Path)
    requires IsPath(root, q)
    ensures q == [] ==> Along(root, q) == OwnScope(root.node)
    ensures q != [] ==> Along(root, q) == OwnScope(root.node) + Along(root.children[q[0]], q[1..])
  {
  }

  lemma FirstContainer(root: Syntax, q: Path)
    requires IsPath(root, q)
    ensures Containers(root, q, 0) == OwnScope(root.node)
  {
    assert q[..0] == [];
  }

  /** At every visit the stack holds exactly the containers with a name among the node and its
      ancestors, outermost first. */
  lemma ScopesAreContainers(root: Syntax, k: nat)
    requires k < |Paths(root, [])|
    ensures |VisitsOf(root, [])| == |Paths(root, [])| && IsPath(root, Paths(root, [])[k])
    ensures var q := Paths(root, [])[k];
            VisitsOf(root, [])[k] == Visit(At(root, q).node, Containers(root, q, |q|))
  {
    hide Paths, VisitsOf, Along, Containers;
    var q := Paths(root, [])[k];
    StackIsAncestors(root, [], [], k);
    assert q[0..] == q && [] + Along(root, q) == Along(root, q);
    AlongIsContainers(root, q);
  }

  /** The node with that name can be the parent of a symbol named `own` on `row`. */
  predicate Suits(node: SyntaxNode, own: string, row: nat, name: string) {
    node.container && node.name == Some(name) && name != own && row <= node.endRow
  }

  /** No container, or named like the symbol, or it ends before the row. */
  predicate PassedOver(node: SyntaxNode, own: string, row: nat) {
    node.container && node.name.Some? ==> node.name == Some(own) || row > node.endRow
  }

  /** The name of the node at `p` is a possible parent of the symbol for the node at `q`: `p` is `q`
      or above it and is a container with that name, which is not the symbol's own; and every
      container further in is named like the symbol, or ends before the node's row. */
  ghost predicate Encloses(root: Syntax, sym: Symbol, p: Path, q: Path, name: string)
    requires IsPath(root, q)
  {
    && p <= q && IsPath(root, p) && Suits(At(root, p).node, sym.name, At(root, q).node.row, name)
    && forall inner: Path | p <= inner <= q && |p| < |inner| && IsPath(root, inner) ::
         PassedOver(At(root, inner).node, sym.name, At(root, q).node.row)
  }

  lemma EnclosingStep(outer: seq<Scope>, node: SyntaxNode, own: string, row: nat, name: string)
    requires Enclosing(outer + ContainerScope(node), own, row) == Some(name)
    ensures Suits(node, own, row, name) || (PassedOver(node, own, row) && Enclosing(outer, own, row) == Some(name))
    ensures Enclosing([], own, row).None?
  {
    var scopes := outer + ContainerScope(node);
    if node.container && node.name.Some? {
      assert scopes[..|scopes| - 1] == outer;
    } else {
      assert scopes == outer;
    }
  }

  lemma {:induction false} EnclosingIsContainer(root: Syntax, sym: Symbol, q: Path, k: nat, row: nat, name: string) returns (m: nat)
    requires IsPath(root, q) && k <= |q| && Enclosing(Containers(root, q, k), sym.name, row) == Some(name)
    ensures m <= k && Suits(NodeAt(root, q, m), sym.name, row, name)
    ensures forall j | m < j <= k :: PassedOver(NodeAt(root, q, j), sym.name, row)
    decreases k
  {
    hide *;
    var node := NodeAt(root, q, k);
    var outer := if k == 0 then [] else Containers(root, q, k - 1);
    ContainersStep(root, q, k);
    EnclosingStep(outer, node, sym.name, row, name);
    m := k;
    if !Suits(node, sym.name, row, name) && k > 0 {
      m := EnclosingIsContainer(root, sym, q, k - 1, row, name);
    }
  }

  /** A parent that the pass has changed is the name of a container at or above a node on the
      symbol's line, and the innermost one there is. */
  lemma ChangedParentEncloses(root: Syntax, sym: Symbol) returns (p: Path, q: Path)
    requires AssignAll(sym, VisitsOf(root, [])).parent != sym.parent
    ensures AssignAll(sym, VisitsOf(root, [])).parent.Some? && IsPath(root, q) && At(root, q).node.row == sym.line
    ensures Encloses(root, sym, p, q, AssignAll(sym, VisitsOf(root, [])).parent.value)
  {
    hide VisitsOf, AssignAll, Paths, IsPath, At, Containers, Encloses;
    var paths, visits := Paths(root, []), VisitsOf(root, []);
    SameCount(root, [], []);
    var k := LastAssigning(sym, visits);
    LastParentWins(sym, visits, k);
    ScopesAreContainers(root, k - 1);
    q := paths[k - 1];
    var name := ParentFrom(sym, visits[k - 1]).value;
    var m := EnclosingIsContainer(root, sym, q, |q|, At(root, q).node.row, name);
    p := q[..m];
    ItEncloses(root, sym, q, m, name);
  }

  lemma ItEncloses(root: Syntax, sym: Symbol, q: Path, m: nat, name: string)
    requires IsPath(root, q) && m <= |q| && Suits(NodeAt(root, q, m), sym.name, At(root, q).node.row, name)
    requires forall j | m < j <= |q| :: PassedOver(NodeAt(root, q, j), sym.name, At(root, q).node.row)
    ensures Encloses(root, sym, q[..m], q, name)
  {
    hide IsPath, At, Suits, PassedOver;
    PrefixesArePaths(root, q, m);
    forall inner: Path | q[..m] <= inner <= q && m < |inner| && IsPath(root, inner)
      ensures PassedOver(At(root, inner).node, sym.name, At(root, q).node.row)
    {
      assert inner == q[..|inner|] && At(root, inner).node == NodeAt(root, q, |inner|);
    }
  }
}
