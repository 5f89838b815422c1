/** `walk_containment_and_docs`: the scope stack, and what a symbol's parent and doc comment
    come out as. */
module Containment {
  import opened Options
  import opened TreeCursor

  /** What the walk reads of a syntax node: `doc` is the doc comment in front of it, `name` the
      container name that can be extracted from it. */
  datatype SyntaxNode = SyntaxNode(container: bool, name: Option<string>, row: nat, endRow: nat, doc: Option<string>)

  type Syntax = Tree<SyntaxNode>

  datatype Scope = Scope(name: string, row: nat, endRow: nat)

  /** `rest` stands for the fields the walk never touches. */
  datatype Symbol = Symbol(name: string, line: nat, parent: Option<string>, doc: Option<string>, rest: string)

  // ----- Specification -----

  function OwnScope(node: SyntaxNode): seq<Scope> {
    if node.container && node.name.Some? then [Scope(node.name.value, node.row, node.endRow)] else []
  }

  /** A visited node, with the scope stack at that moment. */
  datatype Visit = Visit(node: SyntaxNode, scopes: seq<Scope>)

  /** The visits of a subtree entered with `scopes` on the stack. */
  function VisitsOf(t: Syntax, scopes: seq<Scope>): seq<Visit>
    decreases t, |t.children| + 1
  {
    var inner := scopes + OwnScope(t.node);
    [Visit(t.node, inner)] + VisitsFrom(t, inner, 0)
  }

  function VisitsFrom(t: Syntax, inner: seq<Scope>, i: nat): seq<Visit>
    requires i <= |t.children|
    decreases t, |t.children| - i
  {
    if i == |t.children| then [] else VisitsOf(t.children[i], inner) + VisitsFrom(t, inner, i + 1)
  }

  /** The innermost scope with another name that reaches down to `row`. */
  function Enclosing(scopes: seq<Scope>, name: string, row: nat): Option<string> {
    if scopes == [] then None
    else
      var top := scopes[|scopes| - 1];
      if top.name != name && row <= top.endRow then Some(top.name) else Enclosing(scopes[..|scopes| - 1], name, row)
  }

  function WithParent(sym: Symbol, parent: Option<string>): Symbol {
    if parent.Some? then sym.(parent := parent) else sym
  }

  function WithDoc(sym: Symbol, doc: Option<string>): Symbol {
    if doc.Some? && sym.doc.None? then sym.(doc := doc) else sym
  }

  /** What one visit does to a symbol. */
  function Assign(sym: Symbol, v: Visit): Symbol {
    if sym.line == v.node.row then WithDoc(WithParent(sym, Enclosing(v.scopes, sym.name, v.node.row)), v.node.doc) else sym
  }

  function AssignAll(sym: Symbol, visits: seq<Visit>): Symbol
    decreases |visits|
  {
    if visits == [] then sym else AssignAll(Assign(sym, visits[0]), visits[1..])
  }

  lemma {:induction false} AssignAppend(sym: Symbol, a: seq<Visit>, b: seq<Visit>)
    ensures AssignAll(sym, a + b) == AssignAll(AssignAll(sym, a), b)
    decreases |a|
  {
    hide Assign;
    if a == [] {
      assert a + b == b;
    } else {
      AssignAppend(Assign(sym, a[0]), a[1..], b);
      assert (a + b)[1..] == a[1..] + b;
    }
  }

  lemma {:induction false} AssignKeepsIdentity(sym: Symbol, visits: seq<Visit>)
    ensures var r := AssignAll(sym, visits);
            r.name == sym.name && r.line == sym.line && r.rest == sym.rest
    decreases |visits|
  {
    if visits != [] {
      AssignKeepsIdentity(Assign(sym, visits[0]), visits[1..]);
    }
  }

  // ----- The walk -----

  /** The indexes of the symbols on each line. */
  ghost predicate IndexOf(index: map<nat, seq<nat>>, symbols: seq<Symbol>) {
    && (forall line | line in index :: forall k | 0 <= k < |index[line]| ::
          index[line][k] < |symbols| && symbols[index[line][k]].line == line)
    && (forall i | 0 <= i < |symbols| :: symbols[i].line in index && i in index[symbols[i].line])
  }

  ghost predicate SameLines(a: seq<Symbol>, b: seq<Symbol>) {
    |a| == |b| && forall i | 0 <= i < |a| :: a[i].line == b[i].line && a[i].name == b[i].name
  }

  lemma SameIndex(index: map<nat, seq<nat>>, a: seq<Symbol>, b: seq<Symbol>)
    requires IndexOf(index, a) && SameLines(a, b)
    ensures IndexOf(index, b)
  {
  }

  class Walker {
    const lineToIdx: map<nat, seq<nat>>
    var scopeStack: seq<Scope>
    var symbols: seq<Symbol>

    ghost predicate Valid()
      reads this
    {
      IndexOf(lineToIdx, symbols)
    }

    /** The line index is built, and the stack is empty. */
    constructor (symbols: seq<Symbol>)
      ensures Valid() && this.symbols == symbols && scopeStack == []
    {
      var index: map<nat, seq<nat>> := map[];
      for i := 0 to |symbols|
        invariant IndexOf(index, symbols[..i])
      {
        var line := symbols[i].line;
        var before := if line in index then index[line] else [];
        IndexGrows(index, symbols[..i], symbols[i]);
        assert symbols[..i + 1] == symbols[..i] + [symbols[i]];
        index := index[line := before + [i]];
      }
      assert symbols[..|symbols|] == symbols;
      lineToIdx := index;
      scopeStack := [];
      this.symbols := symbols;
    }

    /** The loop over the stack from the top. */
    method FindEnclosing(name: string, row: nat) returns (parent: Option<string>)
      ensures parent == Enclosing(scopeStack, name, row)
    {
      var n := |scopeStack|;
      assert scopeStack[..n] == scopeStack;
      while n > 0
        invariant n <= |scopeStack| && Enclosing(scopeStack[..n], name, row) == Enclosing(scopeStack, name, row)
      {
        assert scopeStack[..n][..n - 1] == scopeStack[..n - 1];
        n := n - 1;
        if scopeStack[n].name != name && row <= scopeStack[n].endRow {
          return Some(scopeStack[n].name);
        }
      }
      parent := None;
    }

    /** The two loops over the symbols on the node's line. */
    method AssignHere(node: SyntaxNode)
      requires Valid()
      modifies this`symbols
      ensures Valid() && SameLines(old(symbols), symbols)
      ensures forall i | 0 <= i < |symbols| :: symbols[i] == Assign(old(symbols)[i], Visit(node, scopeStack))
    {
      hide Enclosing, IndexOf;
      ghost var before, index := symbols, lineToIdx;
      if node.row !in lineToIdx {
        NobodyThere(lineToIdx, symbols, node.row);
        return;
      }
      var indices := lineToIdx[node.row];
      IndexMeans(lineToIdx, symbols, node.row);
      for n := 0 to |indices|
        invariant SameLines(before, symbols)
        invariant forall i | 0 <= i < |symbols| ::
                    symbols[i] == if i in indices[..n] then WithParent(before[i], Enclosing(scopeStack, before[i].name, node.row))
                                  else before[i]
      {
        var idx := indices[n];
        var parent := FindEnclosing(symbols[idx].name, node.row);
        if parent.Some? {
          symbols := symbols[idx := symbols[idx].(parent := parent)];
        }
        assert forall i :: i in indices[..n + 1] <==> i in indices[..n] || i == idx;
      }
      assert indices[..|indices|] == indices;
      ghost var middle := symbols;
      if node.doc.Some? {
        for n := 0 to |indices|
          invariant SameLines(before, symbols)
          invariant forall i | 0 <= i < |symbols| ::
                      symbols[i] == if i in indices[..n] then WithDoc(middle[i], node.doc) else middle[i]
        {
          var idx := indices[n];
          if symbols[idx].doc.None? {
            symbols := symbols[idx := symbols[idx].(doc := node.doc)];
          }
          assert forall i :: i in indices[..n + 1] <==> i in indices[..n] || i == idx;
        }
      }
      SameIndex(lineToIdx, before, symbols);
    }

    /** The recursive walk: it leaves the stack as it found it, and does to each symbol what the
        visits of the subtree say. */
    method Walk(t: Syntax)
      requires Valid()
      modifies this`scopeStack, this`symbols
      ensures Valid() && scopeStack == old(scopeStack) && |symbols| == |old(symbols)|
      ensures forall i | 0 <= i < |symbols| :: symbols[i] == AssignAll(old(symbols)[i], VisitsOf(t, scopeStack))
      decreases t
    {
      hide Assign, IndexOf, AssignAll, Enclosing, VisitsOf, VisitsFrom;
      var node := t.node;
      ghost var before, outer := symbols, scopeStack;
      ghost var inner := outer + OwnScope(node);
      if node.container && node.name.Some? {
        scopeStack := scopeStack + [Scope(node.name.value, node.row, node.endRow)];
      }
      assert scopeStack == inner;
      AssignHere(node);
      ghost var done := [Visit(node, inner)];
      forall i | 0 <= i < |symbols|
        ensures symbols[i] == AssignAll(before[i], done)
      {
        AssignOne(before[i], Visit(node, inner));
      }
      VisitsStart(t, outer);
      for i := 0 to |t.children|
        invariant Valid() && scopeStack == inner && |symbols| == |before|
        invariant done + VisitsFrom(t, inner, i) == VisitsOf(t, outer)
        invariant forall k | 0 <= k < |symbols| :: symbols[k] == AssignAll(before[k], done)
      {
        ghost var visits := VisitsOf(t.children[i], inner);
        VisitsStep(t, inner, i, done);
        Walk(t.children[i]);
        forall k | 0 <= k < |symbols|
          ensures symbols[k] == AssignAll(before[k], done + visits)
        {
          AssignAppend(before[k], done, visits);
        }
        done := done + visits;
      }
      VisitsEnd(t, inner, done);
      if node.container && node.name.Some? {
        if scopeStack != [] && scopeStack[|scopeStack| - 1].name == node.name.value {
          scopeStack := scopeStack[..|scopeStack| - 1];
        }
      }
    }
  }

  lemma IndexGrows(index: map<nat, seq<nat>>, symbols: seq<Symbol>, sym: Symbol)
    requires IndexOf(index, symbols)
    ensures var before := if sym.line in index then index[sym.line] else [];
            IndexOf(index[sym.line := before + [|symbols|]], symbols + [sym])
  {
    var before := if sym.line in index then index[sym.line] else [];
    var index', symbols' := index[sym.line := before + [|symbols|]], symbols + [sym];
    forall i | 0 <= i < |symbols'|
      ensures symbols'[i].line in index' && i in index'[symbols'[i].line]
    {
      if i < |symbols| {
        assert symbols'[i] == symbols[i];
      } else {
        assert index'[sym.line][|before|] == i;
      }
    }
  }

  lemma NobodyThere(index: map<nat, seq<nat>>, symbols: seq<Symbol>, row: nat)
    requires IndexOf(index, symbols) && row !in index
    ensures forall i | 0 <= i < |symbols| :: symbols[i].line != row
  {
  }

  lemma IndexMeans(index: map<nat, seq<nat>>, symbols: seq<Symbol>, row: nat)
    requires IndexOf(index, symbols) && row in index
    ensures forall k | 0 <= k < |index[row]| :: index[row][k] < |symbols|
    ensures forall i: nat | i < |symbols| :: i in index[row] <==> symbols[i].line == row
  {
  }

  lemma AssignOne(sym: Symbol, v: Visit)
    ensures AssignAll(sym, [v]) == Assign(sym, v)
  {
    assert [v][1..] == [];
    assert AssignAll(Assign(sym, v), []) == Assign(sym, v);
  }

  lemma VisitsStep(t: Syntax, inner: seq<Scope>, i: nat, done: seq<Visit>)
    requires i < |t.children|
    ensures done + VisitsFrom(t, inner, i) == done + VisitsOf(t.children[i], inner) + VisitsFrom(t, inner, i + 1)
  {
  }

  lemma VisitsEnd(t: Syntax, inner: seq<Scope>, done: seq<Visit>)
    ensures done + VisitsFrom(t, inner, |t.children|) == done
  {
  }

  lemma VisitsStart(t: Syntax, outer: seq<Scope>)
    ensures var inner := outer + OwnScope(t.node);
            [Visit(t.node, inner)] + VisitsFrom(t, inner, 0) == VisitsOf(t, outer)
  {
  }

  /** `populate_doc_comments_and_containment`. */
  method Populate(root: Syntax, symbols: seq<Symbol>) returns (r: seq<Symbol>)
    ensures |r| == |symbols| && forall i | 0 <= i < |r| :: r[i] == AssignAll(symbols[i], VisitsOf(root, []))
    ensures forall i | 0 <= i < |r| ::
              r[i].name == symbols[i].name && r[i].line == symbols[i].line && r[i].rest == symbols[i].rest
  {
    hide AssignAll, VisitsOf;
    if symbols == [] {
      return [];
    }
    var walker := new Walker(symbols);
    walker.Walk(root);
    r := walker.symbols;
    forall i | 0 <= i < |r|
      ensures r[i].name == symbols[i].name && r[i].line == symbols[i].line && r[i].rest == symbols[i].rest
    {
      AssignKeepsIdentity(symbols[i], VisitsOf(root, []));
    }
  }
}
