/**
 * `ASTNode.findAllVariables`: the distinct variable names of a subtree, collected by the
 * generic `forEachVariable` walk over `getChildren`. Because `VariableNode` equality is by name,
 * a set of variable nodes is modelled as a set of names.
 */
module Variables {
  import opened Ast
  import opened OrderedMap

  /** `forEachVariable`: the names visited, in pre-order and with repetitions. */
  function Visit(n: Node): seq<string>
    decreases Size(n), 0
  {
    SelfName(n) + VisitAll(Values(Children(n)))
  }

  function VisitAll(ns: seq<Node>): seq<string>
    decreases NodesSize(ns), 1
  {
    if ns == [] then [] else Visit(ns[0]) + VisitAll(ns[1..])
  }

  /** What the visitor reports for the node itself: its name if it is a `VariableNode`. */
  function SelfName(n: Node): seq<string>
  {
    if n.E? && n.expr.Var? then [n.expr.name] else []
  }

  /** `findAllVariables()`. */
  function FindAllVariables(n: Node): set<string>
  {
    set x | x in Visit(n)
  }

  /** The union of the variable sets of a list of nodes. */
  function UnionOf(ns: seq<Node>): set<string>
  {
    if ns == [] then {} else FindAllVariables(ns[0]) + UnionOf(ns[1..])
  }

  // ------------------------------------------------ structural reference definition

  /** The names an expression reads, by structure. */
  function ExprNames(e: Expr): set<string>
  {
    match e
    case Const(_) => {}
    case Var(x) => {x}
    case Bin(_, l, r) => ExprNames(l) + ExprNames(r)
  }

  /** The names a statement reads or writes, by structure. */
  function StmtNames(s: Stmt): set<string>
  {
    match s
    case Assign(x, e) => {x} + ExprNames(e)
    case Block(ss) => set i, x | 0 <= i < |ss| && x in StmtNames(ss[i]) :: x
    case Cond(_, l, r, t, f) => ExprNames(l) + ExprNames(r) + StmtNames(t) + StmtNames(f)
    case Loop(b) => StmtNames(b)
    case Exit => {}
  }

  function NodeNames(n: Node): set<string>
  {
    match n
    case E(e) => ExprNames(e)
    case S(s) => StmtNames(s)
  }

  // ------------------------------------------------ properties

  lemma {:induction false} LemmaVisitAllIsUnion(ns: seq<Node>)
    ensures (set x | x in VisitAll(ns)) == UnionOf(ns)
    decreases |ns|
  {
    if ns != [] {
      LemmaVisitAllIsUnion(ns[1..]);
    }
  }

  /**
   * A node's variable set is its own name (when it is a variable) together with the union of
   * its children's sets; no other node contributes a name of its own.
   */
  lemma LemmaVariablesFromChildren(n: Node)
    ensures FindAllVariables(n) == (set x | x in SelfName(n)) + UnionOf(Values(Children(n)))
  {
    LemmaVisitAllIsUnion(Values(Children(n)));
  }

  lemma LemmaUnionOfTwo(a: Node, b: Node)
    ensures UnionOf([a, b]) == FindAllVariables(a) + FindAllVariables(b)
  {
    assert [a, b][1..] == [b];
    assert [b][1..] == [];
    assert UnionOf([b]) == FindAllVariables(b) + UnionOf([]);
  }

  lemma LemmaUnionOfFour(a: Node, b: Node, c: Node, d: Node)
    ensures UnionOf([a, b, c, d]) ==
      FindAllVariables(a) + FindAllVariables(b) + FindAllVariables(c) + FindAllVariables(d)
  {
    assert [a, b, c, d][1..] == [b, c, d];
    assert [b, c, d][1..] == [c, d];
    LemmaUnionOfTwo(c, d);
  }

  /** The generic walk finds exactly the names the expression reads. */
  lemma {:induction false} LemmaExprVariables(e: Expr)
    ensures FindAllVariables(E(e)) == ExprNames(e)
  {
    match e
    case Const(_) => LemmaVariablesFromChildren(E(e));
    case Var(_) => LemmaVariablesFromChildren(E(e));
    case Bin(_, l, r) =>
      LemmaExprVariables(l);
      LemmaExprVariables(r);
      LemmaNodeFromChildren2(E(e), E(l), E(r));
  }

  /** The generic walk finds exactly the names the statement reads or writes. */
  lemma {:induction false} LemmaStmtVariables(s: Stmt)
    ensures FindAllVariables(S(s)) == StmtNames(s)
    decreases StmtSize(s), 0
  {
    match s
    case Assign(y, e) =>
      LemmaAssignVariables(y, e);
    case Block(ss) =>
      LemmaVariablesFromChildren(S(s));
      LemmaBlockUnion(ss);
    case Cond(op, l, r, t, f) =>
      LemmaExprVariables(l);
      LemmaExprVariables(r);
      LemmaStmtVariables(t);
      LemmaStmtVariables(f);
      LemmaCondFromChildren(op, l, r, t, f);
    case Loop(b) =>
      LemmaStmtVariables(b);
      LemmaLoopVariables(b);
    case Exit =>
      LemmaVariablesFromChildren(S(s));
  }

  lemma LemmaAssignVariables(y: string, e: Expr)
    ensures FindAllVariables(S(Assign(y, e))) == StmtNames(Assign(y, e))
  {
    LemmaExprVariables(Var(y));
    LemmaExprVariables(e);
    LemmaNodeFromChildren2(S(Assign(y, e)), E(Var(y)), E(e));
  }

  lemma LemmaLoopVariables(b: Stmt)
    ensures FindAllVariables(S(Loop(b))) == FindAllVariables(S(b))
  {
    LemmaVariablesFromChildren(S(Loop(b)));
    assert Values(Children(S(Loop(b)))) == [S(b)];
    assert [S(b)][1..] == [];
  }

  lemma LemmaNodeFromChildren2(n: Node, a: Node, b: Node)
    requires !(n.E? && n.expr.Var?)
    requires Values(Children(n)) == [a, b]
    ensures FindAllVariables(n) == FindAllVariables(a) + FindAllVariables(b)
  {
    LemmaVariablesFromChildren(n);
    LemmaUnionOfTwo(a, b);
  }

  lemma LemmaCondFromChildren(op: CmpOp, l: Expr, r: Expr, t: Stmt, f: Stmt)
    ensures FindAllVariables(S(Cond(op, l, r, t, f))) ==
      FindAllVariables(E(l)) + FindAllVariables(E(r)) + FindAllVariables(S(t)) + FindAllVariables(S(f))
  {
    LemmaVariablesFromChildren(S(Cond(op, l, r, t, f)));
    LemmaUnionOfFour(E(l), E(r), S(t), S(f));
  }

  lemma {:induction false} LemmaBlockUnion(ss: seq<Stmt>)
    ensures UnionOf(seq(|ss|, i requires 0 <= i < |ss| => S(ss[i]))) == StmtNames(Block(ss))
    decreases StmtsSize(ss), 1
  {
    if ss != [] {
      var ns := seq(|ss|, i requires 0 <= i < |ss| => S(ss[i]));
      assert ns[1..] == seq(|ss[1..]|, i requires 0 <= i < |ss[1..]| => S(ss[1..][i]));
      LemmaStmtVariables(ss[0]);
      LemmaBlockUnion(ss[1..]);
      forall x ensures x in StmtNames(Block(ss)) <==> x in StmtNames(ss[0]) + StmtNames(Block(ss[1..])) {
        if x in StmtNames(Block(ss)) {
          var i :| 0 <= i < |ss| && x in StmtNames(ss[i]);
          if i > 0 {
            assert ss[i] == ss[1..][i - 1];
          }
        }
        if x in StmtNames(Block(ss[1..])) {
          var i :| 0 <= i < |ss[1..]| && x in StmtNames(ss[1..][i]);
          assert ss[1..][i] == ss[i + 1];
        }
      }
    }
  }

  lemma LemmaNodeVariables(n: Node)
    ensures FindAllVariables(n) == NodeNames(n)
  {
    match n
    case E(e) => LemmaExprVariables(e);
    case S(s) => LemmaStmtVariables(s);
  }

  /** A variable node's set is exactly itself; the other leaves contribute nothing. */
  lemma LemmaLeafVariables(x: string, v: real)
    ensures FindAllVariables(E(Var(x))) == {x}
    ensures FindAllVariables(E(Const(v))) == {}
    ensures FindAllVariables(S(Exit)) == {}
  {
    LemmaExprVariables(Var(x));
    LemmaExprVariables(Const(v));
    LemmaStmtVariables(Exit);
  }

  /** The target of an assignment is among its variables, as its `lhs` child. */
  lemma LemmaAssignmentTargetCounts(x: string, e: Expr)
    ensures FindAllVariables(S(Assign(x, e))) == {x} + FindAllVariables(E(e))
  {
    LemmaStmtVariables(Assign(x, e));
    LemmaExprVariables(e);
  }
}
