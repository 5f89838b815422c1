/** The syntax walks that move one cursor through a tree, against preorder. */
module TreeCursor {
  datatype Tree<N> = Tree(node: N, children: seq<Tree<N>>)

  /** A position below a root: the index of each child on the way down. */
  type Path = seq<nat>

  predicate IsPath<N>(t: Tree<N>, p: Path) {
    p == [] || (p[0] < |t.children| && IsPath(t.children[p[0]], p[1..]))
  }

  function At<N>(t: Tree<N>, p: Path): Tree<N>
    requires IsPath(t, p)
  {
    if p == [] then t else At(t.children[p[0]], p[1..])
  }

  function Parent(p: Path): Path
    requires p != []
  {
    p[..|p| - 1]
  }

  function Last(p: Path): nat
    requires p != []
  {
    p[|p| - 1]
  }

  lemma {:induction false} AtChild<N>(t: Tree<N>, p: Path, i: nat)
    requires IsPath(t, p)
    ensures IsPath(t, p + [i]) <==> i < |At(t, p).children|
    ensures i < |At(t, p).children| ==> At(t, p + [i]) == At(t, p).children[i]
  {
    if p == [] {
      assert ([] + [i])[1..] == [];
      assert IsPath(t, [i]) <==> i < |t.children|;
    } else {
      AtChild(t.children[p[0]], p[1..], i);
      assert (p + [i])[1..] == p[1..] + [i];
    }
  }

  lemma {:induction false} ParentIsPath<N>(t: Tree<N>, p: Path)
    requires IsPath(t, p) && p != []
    ensures IsPath(t, Parent(p)) && Last(p) < |At(t, Parent(p)).children|
    ensures At(t, p) == At(t, Parent(p)).children[Last(p)]
  {
    PrefixIsPath(t, p);
    AtChild(t, Parent(p), Last(p));
    assert Parent(p) + [Last(p)] == p;
  }

  lemma {:induction false} PrefixIsPath<N>(t: Tree<N>, p: Path)
    requires IsPath(t, p) && p != []
    ensures IsPath(t, Parent(p))
  {
    if |p| > 1 {
      PrefixIsPath(t.children[p[0]], p[1..]);
      assert Parent(p)[1..] == Parent(p[1..]);
    }
  }

  // ----- Preorder -----

  /** A node, then its children's subtrees from left to right. */
  function Preorder<N>(t: Tree<N>): seq<Tree<N>>
    decreases t, |t.children| + 1
  {
    [t] + ChildrenPreorder(t, 0)
  }

  /** The subtrees of the children from child `i` on. */
  function ChildrenPreorder<N>(t: Tree<N>, i: nat): seq<Tree<N>>
    requires i <= |t.children|
    decreases t, |t.children| - i
  {
    if i == |t.children| then [] else Preorder(t.children[i]) + ChildrenPreorder(t, i + 1)
  }

  /** The positions of these nodes, for a tree that is itself at `p`. */
  function Paths<N>(t: Tree<N>, p: Path): seq<Path>
    decreases t, |t.children| + 1
  {
    [p] + ChildrenPaths(t, p, 0)
  }

  function ChildrenPaths<N>(t: Tree<N>, p: Path, i: nat): seq<Path>
    requires i <= |t.children|
    decreases t, |t.children| - i
  {
    if i == |t.children| then [] else Paths(t.children[i], p + [i]) + ChildrenPaths(t, p, i + 1)
  }

  /** Document order: a node before its descendants, and they before later siblings. */
  predicate Before(p: Path, q: Path) {
    if p == [] then q != []
    else q != [] && (p[0] < q[0] || (p[0] == q[0] && Before(p[1..], q[1..])))
  }

  /** The paths are at `p` or below it. */
  ghost predicate Below<N>(t: Tree<N>, p: Path, paths: seq<Path>) {
    forall q :: q in paths <==> p <= q && IsPath(t, q[|p|..])
  }

  /** They lead through a child from `i` on. */
  ghost predicate BelowFrom<N>(t: Tree<N>, p: Path, i: nat, paths: seq<Path>) {
    forall q :: q in paths <==> p <= q && |q| > |p| && q[|p|] >= i && IsPath(t, q[|p|..])
  }

  /** Every node of the tree is in the list, and nothing else. */
  lemma {:induction false} PathsAreAll<N>(t: Tree<N>, p: Path)
    ensures Below(t, p, Paths(t, p))
    decreases t, |t.children| + 1
  {
    ChildrenPathsAreAll(t, p, 0);
    forall q
      ensures q in Paths(t, p) <==> p <= q && IsPath(t, q[|p|..])
    {
      assert q in Paths(t, p) <==> q == p || q in ChildrenPaths(t, p, 0);
      if p <= q {
        assert q == p + q[|p|..];
      }
    }
  }

  lemma {:induction false} ChildrenPathsAreAll<N>(t: Tree<N>, p: Path, i: nat)
    requires i <= |t.children|
    ensures BelowFrom(t, p, i, ChildrenPaths(t, p, i))
    decreases t, |t.children| - i
  {
    hide IsPath;
    if i == |t.children| {
      assert forall q: Path :: !(p <= q && |q| > |p| && q[|p|] >= i && IsPath(t, q[|p|..])) by {
        NoChildPath(t, p);
      }
    } else {
      PathsAreAll(t.children[i], p + [i]);
      ChildrenPathsAreAll(t, p, i + 1);
      forall q
        ensures q in ChildrenPaths(t, p, i) <==> p <= q && |q| > |p| && q[|p|] >= i && IsPath(t, q[|p|..])
      {
        ThroughChild(t, p, i, q);
        assert q in ChildrenPaths(t, p, i) <==> q in Paths(t.children[i], p + [i]) || q in ChildrenPaths(t, p, i + 1);
      }
    }
  }

  lemma NoChildPath<N>(t: Tree<N>, p: Path)
    ensures forall q: Path :: !(p <= q && |q| > |p| && q[|p|] >= |t.children| && IsPath(t, q[|p|..]))
  {
  }

  lemma ThroughChild<N>(t: Tree<N>, p: Path, i: nat, q: Path)
    requires i < |t.children|
    ensures p + [i] <= q && IsPath(t.children[i], q[|p| + 1..])
            <==> p <= q && |q| > |p| && q[|p|] == i && IsPath(t, q[|p|..])
  {
    if p + [i] <= q {
      assert q == p + ([i] + q[|p| + 1..]);
    }
    if p <= q && |q| > |p| && q[|p|] == i {
      assert q == p + [i] + q[|p| + 1..];
    }
    if |q| > |p| {
      assert q[|p|..][1..] == q[|p| + 1..];
    }
  }

  /** The list is in document order; so no node is in it twice. */
  lemma {:induction false} PathsAreOrdered<N>(t: Tree<N>, p: Path, a: nat, b: nat)
    requires a < b < |Paths(t, p)|
    ensures Before(Paths(t, p)[a], Paths(t, p)[b]) && Paths(t, p)[a] != Paths(t, p)[b]
    decreases t, |t.children| + 1
  {
    var paths, rest := Paths(t, p), ChildrenPaths(t, p, 0);
    assert forall k | 1 <= k < |paths| :: paths[k] == rest[k - 1];
    if a == 0 {
      ChildrenPathsAreAll(t, p, 0);
      assert paths[b] in rest;
      PrefixIsBefore(p, paths[b]);
    } else {
      ChildrenPathsAreOrdered(t, p, 0, a - 1, b - 1);
    }
  }

  lemma {:induction false} ChildrenPathsAreOrdered<N>(t: Tree<N>, p: Path, i: nat, a: nat, b: nat)
    requires i <= |t.children| && a < b < |ChildrenPaths(t, p, i)|
    ensures Before(ChildrenPaths(t, p, i)[a], ChildrenPaths(t, p, i)[b])
    ensures ChildrenPaths(t, p, i)[a] != ChildrenPaths(t, p, i)[b]
    decreases t, |t.children| - i
  {
    var first, rest := Paths(t.children[i], p + [i]), ChildrenPaths(t, p, i + 1);
    var all := ChildrenPaths(t, p, i);
    assert all == first + rest;
    if b < |first| {
      PathsAreOrdered(t.children[i], p + [i], a, b);
    } else if a >= |first| {
      ChildrenPathsAreOrdered(t, p, i + 1, a - |first|, b - |first|);
    } else {
      PathsAreAll(t.children[i], p + [i]);
      ChildrenPathsAreAll(t, p, i + 1);
      assert all[a] in first && all[b] in rest;
      EarlierChildIsBefore(p, i, all[a], all[b]);
    }
  }

  lemma {:induction false} PrefixIsBefore(p: Path, q: Path)
    requires p <= q && |p| < |q|
    ensures Before(p, q)
  {
    if p != [] {
      PrefixIsBefore(p[1..], q[1..]);
    }
  }

  lemma {:induction false} EarlierChildIsBefore(p: Path, i: nat, a: Path, b: Path)
    requires p + [i] <= a && p <= b && |b| > |p| && b[|p|] > i
    ensures Before(a, b) && a != b
  {
    if p == [] {
      assert a[0] == i;
    } else {
      assert p[1..] + [i] <= a[1..] by {
        assert (p + [i])[1..] == p[1..] + [i];
      }
      assert b[1..][|p| - 1] == b[|p|];
      EarlierChildIsBefore(p[1..], i, a[1..], b[1..]);
    }
  }

  /** The nodes of the preorder are the nodes at these positions. */
  lemma {:induction false} PathsLeadToPreorder<N>(t: Tree<N>, p: Path, k: nat)
    requires k < |Paths(t, p)|
    ensures |Paths(t, p)| == |Preorder(t)|
    ensures var q := Paths(t, p)[k];
            |q| >= |p| && IsPath(t, q[|p|..]) && At(t, q[|p|..]) == Preorder(t)[k]
    decreases t, |t.children| + 1
  {
    if k == 0 {
      SameLength(t, p);
    } else {
      ChildrenPathsLead(t, p, 0, k - 1);
    }
  }

  lemma {:induction false} ChildrenPathsLead<N>(t: Tree<N>, p: Path, i: nat, k: nat)
    requires i <= |t.children| && k < |ChildrenPaths(t, p, i)|
    ensures |ChildrenPaths(t, p, i)| == |ChildrenPreorder(t, i)|
    ensures var q := ChildrenPaths(t, p, i)[k];
            |q| >= |p| && IsPath(t, q[|p|..]) && At(t, q[|p|..]) == ChildrenPreorder(t, i)[k]
    decreases t, |t.children| - i
  {
    var first := Paths(t.children[i], p + [i]);
    ChildrenSameLength(t, p, i);
    SameLength(t.children[i], p + [i]);
    var q := ChildrenPaths(t, p, i)[k];
    if k < |first| {
      PathsLeadToPreorder(t.children[i], p + [i], k);
      PathsAreAll(t.children[i], p + [i]);
      assert q == first[k] && q in first;
      ThroughChild(t, p, i, q);
      assert q[|p|..][1..] == q[|p| + 1..] && q[|p|..][0] == i;
    } else {
      ChildrenPathsLead(t, p, i + 1, k - |first|);
    }
  }

  lemma {:induction false} SameLength<N>(t: Tree<N>, p: Path)
    ensures |Paths(t, p)| == |Preorder(t)|
    decreases t, |t.children| + 1
  {
    ChildrenSameLength(t, p, 0);
  }

  lemma {:induction false} ChildrenSameLength<N>(t: Tree<N>, p: Path, i: nat)
    requires i <= |t.children|
    ensures |ChildrenPaths(t, p, i)| == |ChildrenPreorder(t, i)|
    decreases t, |t.children| - i
  {
    if i < |t.children| {
      SameLength(t.children[i], p + [i]);
      ChildrenSameLength(t, p, i + 1);
    }
  }

  // ----- The cursor -----

  function Next(p: Path): Path
    requires p != []
  {
    Parent(p) + [Last(p) + 1]
  }

  predicate HasNext<N>(root: Tree<N>, p: Path) {
    p != [] && IsPath(root, Next(p))
  }

  /** A cursor that cannot leave the tree it was made for. */
  class Cursor<N> {
    const root: Tree<N>
    var path: Path

    ghost predicate Valid()
      reads this
    {
      IsPath(root, path)
    }

    constructor (root: Tree<N>)
      ensures Valid() && this.root == root && path == []
    {
      this.root := root;
      path := [];
    }

    method Node() returns (t: Tree<N>)
      requires Valid()
      ensures t == At(root, path)
    {
      t := At(root, path);
    }

    method GotoFirstChild() returns (moved: bool)
      requires Valid()
      modifies this
      ensures Valid() && moved == (At(root, old(path)).children != [])
      ensures path == if moved then old(path) + [0] else old(path)
    {
      AtChild(root, path, 0);
      moved := At(root, path).children != [];
      if moved {
        path := path + [0];
      }
    }

    method GotoNextSibling() returns (moved: bool)
      requires Valid()
      modifies this
      ensures Valid()
      ensures moved == HasNext(root, old(path))
      ensures path == if moved then Next(old(path)) else old(path)
    {
      if path == [] {
        return false;
      }
      ParentIsPath(root, path);
      var parent, next := Parent(path), Last(path) + 1;
      AtChild(root, parent, next);
      moved := next < |At(root, parent).children|;
      if moved {
        path := parent + [next];
      }
    }

    method GotoParent() returns (moved: bool)
      requires Valid()
      modifies this
      ensures Valid() && moved == (old(path) != [])
      ensures path == if moved then Parent(old(path)) else old(path)
    {
      if path == [] {
        return false;
      }
      ParentIsPath(root, path);
      path := Parent(path);
      moved := true;
    }
  }

  // ----- The walk -----

  /** What a walk visits that starts at `p`: the subtree there, and those of the later siblings. */
  function FromHere<N>(root: Tree<N>, p: Path): seq<Tree<N>>
    requires IsPath(root, p)
  {
    if p == [] then Preorder(root)
    else
      ParentIsPath(root, p);
      ChildrenPreorder(At(root, Parent(p)), Last(p))
  }

  /** Where a walk that starts at `p` ends: on the last sibling. */
  function LastSibling<N>(root: Tree<N>, p: Path): Path
    requires IsPath(root, p)
  {
    if p == [] then []
    else
      ParentIsPath(root, p);
      Parent(p) + [|At(root, Parent(p)).children| - 1]
  }

  function Visits<N, O>(nodes: seq<Tree<N>>, visit: Tree<N> -> seq<O>): seq<O> {
    if nodes == [] then [] else visit(nodes[0]) + Visits(nodes[1..], visit)
  }

  lemma Regroup<O>(a: seq<O>, b: seq<O>, c: seq<O>)
    ensures a + (b + c) == (a + b) + c
  {
  }

  lemma VisitsFirst<N, O>(a: seq<Tree<N>>, visit: Tree<N> -> seq<O>)
    requires a != []
    ensures Visits(a, visit) == visit(a[0]) + Visits(a[1..], visit)
  {
  }

  lemma {:induction false} VisitsAppend<N, O>(a: seq<Tree<N>>, b: seq<Tree<N>>, visit: Tree<N> -> seq<O>)
    ensures Visits(a + b, visit) == Visits(a, visit) + Visits(b, visit)
  {
    if a == [] {
      assert a + b == b;
    } else {
      VisitsAppend(a[1..], b, visit);
      assert (a + b)[1..] == a[1..] + b;
      VisitsFirst(a, visit);
      VisitsFirst(a + b, visit);
      hide Visits;
      Regroup(visit(a[0]), Visits(a[1..], visit), Visits(b, visit));
    }
  }

  /** The height of the tree below a position: what the recursion of the walk uses up. */
  function Height<N>(t: Tree<N>): nat
    decreases t, |t.children| + 1
  {
    1 + ChildrenHeight(t, 0)
  }

  function ChildrenHeight<N>(t: Tree<N>, i: nat): nat
    requires i <= |t.children|
    decreases t, |t.children| - i
  {
    if i == |t.children| then 0
    else
      var first, rest := Height(t.children[i]), ChildrenHeight(t, i + 1);
      if first > rest then first else rest
  }

  lemma {:induction false} ChildIsLower<N>(t: Tree<N>, i: nat, k: nat)
    requires i <= k < |t.children|
    ensures Height(t.children[k]) <= ChildrenHeight(t, i)
    decreases k - i
  {
    if i < k {
      ChildIsLower(t, i + 1, k);
    }
  }

  /** How deep the walk still goes from `p`. */
  function Depth<N>(root: Tree<N>, p: Path): nat
    requires IsPath(root, p)
  {
    if p == [] then Height(root)
    else
      ParentIsPath(root, p);
      ChildrenHeight(At(root, Parent(p)), Last(p))
  }

  /** How many later siblings there are. */
  function LaterSiblings<N>(root: Tree<N>, p: Path): nat
    requires IsPath(root, p)
  {
    if p == [] then 0
    else
      ParentIsPath(root, p);
      |At(root, Parent(p)).children| - 1 - Last(p)
  }

  /** Going down: the walk of the children starts at the first, is less deep, and ends below `p`. */
  lemma GoingDown<N>(root: Tree<N>, p: Path)
    requires IsPath(root, p) && At(root, p).children != []
    ensures IsPath(root, p + [0]) && FromHere(root, p + [0]) == ChildrenPreorder(At(root, p), 0)
    ensures Depth(root, p + [0]) < Depth(root, p)
    ensures LastSibling(root, p + [0]) != [] && Parent(LastSibling(root, p + [0])) == p
  {
    var t, first := At(root, p), p + [0];
    AtChild(root, p, 0);
    assert Parent(first) == p && Last(first) == 0;
    if p != [] {
      ParentIsPath(root, p);
      ChildIsLower(At(root, Parent(p)), Last(p), Last(p));
    }
  }

  lemma LaterIsLower<N>(t: Tree<N>, i: nat)
    requires i < |t.children|
    ensures ChildrenHeight(t, i + 1) <= ChildrenHeight(t, i)
  {
  }

  /** Going right: the walk goes on at the next sibling, or it was at the last one. */
  lemma GoingRight<N>(root: Tree<N>, p: Path)
    requires IsPath(root, p)
    ensures HasNext(root, p) ==>
              && LastSibling(root, Next(p)) == LastSibling(root, p) && Depth(root, Next(p)) <= Depth(root, p)
              && LaterSiblings(root, Next(p)) < LaterSiblings(root, p)
    ensures !HasNext(root, p) ==> p == LastSibling(root, p)
  {
    hide IsPath, At, ChildrenHeight, Height;
    if p != [] {
      ParentIsPath(root, p);
      AtChild(root, Parent(p), Last(p) + 1);
      assert Parent(Next(p)) == Parent(p) && Last(Next(p)) == Last(p) + 1;
      assert p == Parent(p) + [Last(p)];
      LaterIsLower(At(root, Parent(p)), Last(p));
    }
  }

  /** A walk visits the node, its descendants, and then what a walk from the next sibling does. */
  lemma VisitsHere<N, O>(root: Tree<N>, p: Path, visit: Tree<N> -> seq<O>)
    requires IsPath(root, p)
    ensures var t := At(root, p);
            Visits(FromHere(root, p), visit)
            == visit(t) + Visits(ChildrenPreorder(t, 0), visit)
               + (if HasNext(root, p) then Visits(FromHere(root, Next(p)), visit) else [])
  {
    hide IsPath, At, Visits;
    var t := At(root, p);
    var own := visit(t) + Visits(ChildrenPreorder(t, 0), visit);
    VisitsAppend([t], ChildrenPreorder(t, 0), visit);
    VisitsOne(t, visit);
    assert Visits(Preorder(t), visit) == own;
    if p == [] {
      assert FromHere(root, p) == Preorder(t) by {
        AtRoot(root);
      }
      assert own + [] == own;
    } else {
      ParentIsPath(root, p);
      var up, i := At(root, Parent(p)), Last(p);
      AtChild(root, Parent(p), i + 1);
      VisitsAppend(Preorder(t), ChildrenPreorder(up, i + 1), visit);
      assert Visits(FromHere(root, p), visit) == own + Visits(ChildrenPreorder(up, i + 1), visit);
      if HasNext(root, p) {
        assert Parent(Next(p)) == Parent(p) && Last(Next(p)) == i + 1;
      } else {
        assert ChildrenPreorder(up, i + 1) == [];
      }
    }
  }

  lemma AtRoot<N>(root: Tree<N>)
    ensures IsPath(root, []) && At(root, []) == root
  {
  }

  lemma VisitsOne<N, O>(t: Tree<N>, visit: Tree<N> -> seq<O>)
    ensures Visits([t], visit) == visit(t) && Visits([], visit) == []
  {
    assert [t][1..] == [];
  }

  /** `walk_for_calls`, `walk_for_symbols` and `walk_for_rationales`: one loop over siblings that
      calls itself for the children. `visit` is what the walk records at a node. The output
      grows by what the nodes record in preorder, and the cursor ends on the last sibling. */
  method Walk<N, O>(cursor: Cursor<N>, visit: Tree<N> -> seq<O>, output: seq<O>) returns (r: seq<O>)
    requires cursor.Valid()
    modifies cursor
    ensures cursor.Valid() && cursor.path == LastSibling(cursor.root, old(cursor.path))
    ensures r == output + Visits(FromHere(cursor.root, old(cursor.path)), visit)
    decreases Depth(cursor.root, cursor.path)
  {
    hide Visits, FromHere, LastSibling, Depth, LaterSiblings, IsPath, At, Next, HasNext, Later, Preorder, ChildrenPreorder, Height, ChildrenHeight;
    var root := cursor.root;
    ghost var start := cursor.path;
    ghost var all := output + Visits(FromHere(root, start), visit);
    r := output;
    while true
      invariant cursor.Valid() && Depth(root, cursor.path) <= Depth(root, start)
      invariant LastSibling(root, cursor.path) == LastSibling(root, start)
      invariant r + Visits(FromHere(root, cursor.path), visit) == all
      decreases LaterSiblings(root, cursor.path)
    {
      ghost var p := cursor.path;
      OneRound(root, p, visit, r);
      GoingRight(root, p);
      var node := cursor.Node();
      r := r + visit(node);
      var down := cursor.GotoFirstChild();
      if down {
        GoingDown(root, p);
        r := Walk(cursor, visit, r);
        var up := cursor.GotoParent();
      } else {
        NoChildren(node, r, visit);
      }
      assert r + Later(root, p, visit) == all;
      LaterIs(root, p, r, visit);
      var right := cursor.GotoNextSibling();
      if !right {
        break;
      }
    }
  }

  /** What a walk at `p` visits once it is done with the subtree there. */
  function Later<N, O>(root: Tree<N>, p: Path, visit: Tree<N> -> seq<O>): seq<O> {
    if HasNext(root, p) then Visits(FromHere(root, Next(p)), visit) else []
  }

  lemma LaterIs<N, O>(root: Tree<N>, p: Path, r: seq<O>, visit: Tree<N> -> seq<O>)
    ensures HasNext(root, p) ==> Later(root, p, visit) == Visits(FromHere(root, Next(p)), visit)
    ensures !HasNext(root, p) ==> r + Later(root, p, visit) == r
  {
  }

  lemma OneRound<N, O>(root: Tree<N>, p: Path, visit: Tree<N> -> seq<O>, r: seq<O>)
    requires IsPath(root, p)
    ensures var t := At(root, p);
            (r + visit(t)) + Visits(ChildrenPreorder(t, 0), visit) + Later(root, p, visit)
            == r + Visits(FromHere(root, p), visit)
  {
    VisitsHere(root, p, visit);
    hide *;
    var t := At(root, p);
    var own, below := visit(t), Visits(ChildrenPreorder(t, 0), visit);
    assert Visits(FromHere(root, p), visit) == own + below + Later(root, p, visit) by {
      LaterUnfolds(root, p, visit);
    }
    Regroup(r, own + below, Later(root, p, visit));
    Regroup(r, own, below);
  }

  lemma LaterUnfolds<N, O>(root: Tree<N>, p: Path, visit: Tree<N> -> seq<O>)
    ensures Later(root, p, visit) == if HasNext(root, p) then Visits(FromHere(root, Next(p)), visit) else []
  {
  }

  lemma NoChildren<N, O>(t: Tree<N>, r: seq<O>, visit: Tree<N> -> seq<O>)
    requires t.children == []
    ensures r + Visits(ChildrenPreorder(t, 0), visit) == r
  {
  }

  /** A walk from the root records what its nodes record in preorder, each node once. */
  method ExtractWalk<N, O>(root: Tree<N>, visit: Tree<N> -> seq<O>) returns (r: seq<O>)
    ensures r == Visits(Preorder(root), visit)
  {
    var cursor := new Cursor(root);
    r := Walk(cursor, visit, []);
  }
}
