/**
 * The Wordy abstract syntax tree (the classes under `wordy.ast`) as immutable datatypes.
 * Every node answers `getChildren` (`Children`), `describeAttributes` (`Attributes`) and the
 * simple class name used by `dump` (`ClassName`); the per-class `equals` methods are modelled
 * by `ExprEquals`/`StmtEquals` and shown to coincide with datatype equality.
 */
module Ast {
  import opened OrderedMap
  import Text

  datatype BinOp = Addition | Subtraction | Multiplication | Division | Exponentiation

  datatype CmpOp = EqualTo | LessThan | GreaterThan

  datatype Expr =
    | Const(value: real)
    | Var(name: string)
    | Bin(op: BinOp, lhs: Expr, rhs: Expr)

  /** An assignment stores the name of its target `VariableNode`. */
  datatype Stmt =
    | Assign(target: string, expr: Expr)
    | Block(stmts: seq<Stmt>)
    | Cond(cmp: CmpOp, left: Expr, right: Expr, ifTrue: Stmt, ifFalse: Stmt)
    | Loop(body: Stmt)
    | Exit

  /** `BlockNode.EMPTY`. */
  const EmptyBlock: Stmt := Block([])

  /** Any AST node: the two families `ExpressionNode` and `StatementNode`. */
  datatype Node = E(expr: Expr) | S(stmt: Stmt)

  // ---------------------------------------------------------------- sizes

  function ExprSize(e: Expr): (n: nat)
    ensures n >= 1
  {
    match e
    case Const(_) => 1
    case Var(_) => 1
    case Bin(_, l, r) => 1 + ExprSize(l) + ExprSize(r)
  }

  function StmtSize(s: Stmt): (n: nat)
    ensures n >= 1
  {
    match s
    case Assign(_, e) => 2 + ExprSize(e)
    case Block(ss) => 1 + StmtsSize(ss)
    case Cond(_, l, r, t, f) => 1 + ExprSize(l) + ExprSize(r) + StmtSize(t) + StmtSize(f)
    case Loop(b) => 1 + StmtSize(b)
    case Exit => 1
  }

  function StmtsSize(ss: seq<Stmt>): nat
  {
    if ss == [] then 0 else StmtSize(ss[0]) + StmtsSize(ss[1..])
  }

  /** The number of nodes in the subtree rooted at `n`. */
  function Size(n: Node): (k: nat)
    ensures k >= 1
  {
    match n
    case E(e) => ExprSize(e)
    case S(s) => StmtSize(s)
  }

  function NodesSize(ns: seq<Node>): nat
  {
    if ns == [] then 0 else Size(ns[0]) + NodesSize(ns[1..])
  }

  lemma {:induction false} LemmaStmtsAsNodesSize(ss: seq<Stmt>)
    ensures NodesSize(seq(|ss|, i requires 0 <= i < |ss| => S(ss[i]))) == StmtsSize(ss)
  {
    if ss != [] {
      var ns := seq(|ss|, i requires 0 <= i < |ss| => S(ss[i]));
      assert ns[1..] == seq(|ss[1..]|, i requires 0 <= i < |ss[1..]| => S(ss[1..][i]));
      LemmaStmtsAsNodesSize(ss[1..]);
    }
  }

  // ---------------------------------------------------------------- children

  function Values<K, V>(m: OMap<K, V>): (vs: seq<V>)
    ensures |vs| == |m|
    ensures forall i :: 0 <= i < |m| ==> vs[i] == m[i].1
  {
    if m == [] then [] else [m[0].1] + Values(m[1..])
  }

  /** The direct subterms of a node, in the order its class declares its fields. */
  function Subterms(n: Node): seq<Node>
  {
    match n
    case E(Const(_)) => []
    case E(Var(_)) => []
    case E(Bin(_, l, r)) => [E(l), E(r)]
    case S(Assign(x, e)) => [E(Var(x)), E(e)]
    case S(Block(ss)) => seq(|ss|, i requires 0 <= i < |ss| => S(ss[i]))
    case S(Cond(_, l, r, t, f)) => [E(l), E(r), S(t), S(f)]
    case S(Loop(b)) => [S(b)]
    case S(Exit) => []
  }

  /** `BlockNode.getChildren`: statement `i` under the label `String.valueOf(i)`. */
  function BlockChildren(ss: seq<Stmt>): (r: OMap<string, Node>)
    ensures Keys(r) == seq(|ss|, i requires 0 <= i < |ss| => Text.NatToString(i))
    ensures Values(r) == seq(|ss|, i requires 0 <= i < |ss| => S(ss[i]))
  {
    var entries := BlockEntries(ss);
    LemmaBlockEntries(ss);
    LemmaFromDistinctEntries(entries);
    FromEntries(entries)
  }

  /** The labelled statements of a block, before they are put into a map. */
  function BlockEntries(ss: seq<Stmt>): seq<(string, Node)>
  {
    seq(|ss|, i requires 0 <= i < |ss| => (Text.NatToString(i), S(ss[i])))
  }

  /** The labels of a block's children are the distinct decimal indices. */
  lemma LemmaBlockEntries(ss: seq<Stmt>)
    ensures Keys(BlockEntries(ss)) == seq(|ss|, i requires 0 <= i < |ss| => Text.NatToString(i))
    ensures Values(BlockEntries(ss)) == seq(|ss|, i requires 0 <= i < |ss| => S(ss[i]))
    ensures Distinct(Keys(BlockEntries(ss)))
  {
    var entries := BlockEntries(ss);
    forall a, b | 0 <= a < b < |entries| ensures Keys(entries)[a] != Keys(entries)[b] {
      if Text.NatToString(a) == Text.NatToString(b) {
        Text.NatToStringInjective(a, b);
      }
    }
  }

  /** `Utils.orderedMap` over two labelled children. */
  function PairChildren(k0: string, a: Node, k1: string, b: Node): (r: OMap<string, Node>)
    requires k0 != k1
    ensures r == [(k0, a), (k1, b)]
    ensures Keys(r) == [k0, k1] && Values(r) == [a, b]
    ensures NodesSize(Values(r)) == Size(a) + Size(b)
  {
    assert Keys([(k0, a), (k1, b)]) == [k0, k1];
    assert Distinct([k0, k1]);
    LemmaFromDistinctEntries([(k0, a), (k1, b)]);
    LemmaNodesSize2(a, b);
    OrderedMap2(k0, a, k1, b)
  }

  /** `Utils.orderedMap` over the four labelled children of a conditional. */
  function CondChildren(l: Expr, r: Expr, t: Stmt, f: Stmt): (m: OMap<string, Node>)
    ensures m == [("lhs", E(l)), ("rhs", E(r)), ("ifTrue", S(t)), ("ifFalse", S(f))]
    ensures Keys(m) == ["lhs", "rhs", "ifTrue", "ifFalse"]
    ensures Values(m) == [E(l), E(r), S(t), S(f)]
    ensures NodesSize(Values(m)) == ExprSize(l) + ExprSize(r) + StmtSize(t) + StmtSize(f)
  {
    var entries := [("lhs", E(l)), ("rhs", E(r)), ("ifTrue", S(t)), ("ifFalse", S(f))];
    assert Distinct(["lhs", "rhs", "ifTrue", "ifFalse"]);
    LemmaEntries4("lhs", E(l), "rhs", E(r), "ifTrue", S(t), "ifFalse", S(f));
    LemmaNodesSize4(E(l), E(r), S(t), S(f));
    FromEntries(entries)
  }

  lemma LemmaEntries4(k0: string, a: Node, k1: string, b: Node, k2: string, c: Node, k3: string, d: Node)
    requires Distinct([k0, k1, k2, k3])
    ensures FromEntries([(k0, a), (k1, b), (k2, c), (k3, d)]) == [(k0, a), (k1, b), (k2, c), (k3, d)]
    ensures Keys([(k0, a), (k1, b), (k2, c), (k3, d)]) == [k0, k1, k2, k3]
    ensures Values([(k0, a), (k1, b), (k2, c), (k3, d)]) == [a, b, c, d]
  {
    var entries := [(k0, a), (k1, b), (k2, c), (k3, d)];
    assert Keys(entries) == [k0, k1, k2, k3];
    assert Values(entries[3..]) == [d];
    assert Values(entries[2..]) == [c, d];
    assert Values(entries[1..]) == [b, c, d];
    LemmaFromDistinctEntries(entries);
  }

  /**
   * `getChildren()`: the labelled children in iteration order. The labels are distinct, and
   * the children are exactly the node's subterms, in declaration order.
   */
  function Children(n: Node): (r: OMap<string, Node>)
    ensures Valid(r)
    ensures Values(r) == Subterms(n)
    ensures NodesSize(Values(r)) < Size(n)
  {
    match n
    case E(Const(_)) => []
    case E(Var(_)) => []
    case E(Bin(_, l, rt)) => PairChildren("lhs", E(l), "rhs", E(rt))
    case S(Assign(x, e)) => PairChildren("lhs", E(Var(x)), "rhs", E(e))
    case S(Block(ss)) =>
      LemmaStmtsAsNodesSize(ss);
      LemmaDistinctLabels(|ss|);
      BlockChildren(ss)
    case S(Cond(_, l, rt, t, f)) => CondChildren(l, rt, t, f)
    case S(Loop(b)) =>
      assert NodesSize([S(b)]) == Size(S(b)) by { LemmaNodesSize1(S(b)); }
      [("body", S(b))]
    case S(Exit) => []
  }

  /** The labels `getChildren` gives, per node class. */
  lemma LemmaChildLabels(n: Node)
    ensures n.E? && !n.expr.Bin? ==> Keys(Children(n)) == []
    ensures n.E? && n.expr.Bin? ==> Keys(Children(n)) == ["lhs", "rhs"]
    ensures n.S? && n.stmt.Assign? ==> Keys(Children(n)) == ["lhs", "rhs"]
    ensures n.S? && n.stmt.Cond? ==> Keys(Children(n)) == ["lhs", "rhs", "ifTrue", "ifFalse"]
    ensures n.S? && n.stmt.Loop? ==> Keys(Children(n)) == ["body"]
    ensures n.S? && n.stmt.Exit? ==> Keys(Children(n)) == []
    ensures n.S? && n.stmt.Block? ==>
      Keys(Children(n)) == seq(|n.stmt.stmts|, i requires 0 <= i < |n.stmt.stmts| => Text.NatToString(i))
  {
  }

  lemma LemmaNodesSize1(a: Node)
    ensures NodesSize([a]) == Size(a)
  {
    assert [a][1..] == [];
  }

  lemma LemmaNodesSize2(a: Node, b: Node)
    ensures NodesSize([a, b]) == Size(a) + Size(b)
  {
    assert [a, b][1..] == [b];
    LemmaNodesSize1(b);
  }

  lemma LemmaNodesSize4(a: Node, b: Node, c: Node, d: Node)
    ensures NodesSize([a, b, c, d]) == Size(a) + Size(b) + Size(c) + Size(d)
  {
    assert [a, b, c, d][1..] == [b, c, d];
    assert [b, c, d][1..] == [c, d];
    LemmaNodesSize2(c, d);
  }

  lemma LemmaDistinctLabels(n: nat)
    ensures Distinct(seq(n, i requires 0 <= i < n => Text.NatToString(i)))
  {
    forall a, b | 0 <= a < b < n ensures Text.NatToString(a) != Text.NatToString(b) {
      if Text.NatToString(a) == Text.NatToString(b) {
        Text.NatToStringInjective(a, b);
      }
    }
  }

  // ---------------------------------------------------------------- dump text

  function BinOpName(op: BinOp): string
  {
    match op
    case Addition => "ADDITION"
    case Subtraction => "SUBTRACTION"
    case Multiplication => "MULTIPLICATION"
    case Division => "DIVISION"
    case Exponentiation => "EXPONENTIATION"
  }

  function CmpOpName(op: CmpOp): string
  {
    match op
    case EqualTo => "EQUALS"
    case LessThan => "LESS_THAN"
    case GreaterThan => "GREATER_THAN"
  }

  /** `getClass().getSimpleName()`. */
  function ClassName(n: Node): string
  {
    match n
    case E(Const(_)) => "ConstantNode"
    case E(Var(_)) => "VariableNode"
    case E(Bin(_, _, _)) => "BinaryExpressionNode"
    case S(Assign(_, _)) => "AssignmentNode"
    case S(Block(_)) => "BlockNode"
    case S(Cond(_, _, _, _, _)) => "ConditionalNode"
    case S(Loop(_)) => "LoopNode"
    case S(Exit) => "LoopExitNode"
  }

  /** `BlockNode.describeAttributes`: "(%d %s)" with "child" for exactly one statement. */
  function BlockAttributes(count: nat): (r: string)
    ensures r == "(1 child)" <==> count == 1
    ensures count != 1 ==> r == "(" + Text.NatToString(count) + " children)"
  {
    var r := "(" + Text.NatToString(count) + " " + (if count == 1 then "child" else "children") + ")";
    r
  }

  /**
   * `describeAttributes()`; `fmt` is Java's double-to-text conversion. Nodes that do not
   * override it (assignments, loops, loop exits) describe themselves with the empty string.
   */
  function Attributes(n: Node, fmt: real -> string): string
  {
    match n
    case E(Const(v)) => "(value=" + fmt(v) + ")"
    case E(Var(x)) => "(name=\"" + x + "\")"
    case E(Bin(op, _, _)) => "(operator=" + BinOpName(op) + ")"
    case S(Block(ss)) => BlockAttributes(|ss|)
    case S(Cond(op, _, _, _, _)) => "(operator=" + CmpOpName(op) + ")"
    case S(_) => ""
  }

  // ---------------------------------------------------------------- equality

  /** The `equals` methods of the expression classes. */
  predicate ExprEquals(a: Expr, b: Expr)
  {
    match a
    case Const(v) => b.Const? && v == b.value
    case Var(x) => b.Var? && x == b.name
    case Bin(op, l, r) => b.Bin? && op == b.op && ExprEquals(l, b.lhs) && ExprEquals(r, b.rhs)
  }

  /**
   * The `equals` methods of the statement classes. `BlockNode` compares its statement lists
   * with `List.equals`; every `LoopExitNode` equals every other.
   */
  predicate StmtEquals(a: Stmt, b: Stmt)
  {
    match a
    case Assign(x, e) => b.Assign? && x == b.target && ExprEquals(e, b.expr)
    case Block(xs) =>
      b.Block? && |xs| == |b.stmts| && forall i :: 0 <= i < |xs| ==> StmtEquals(xs[i], b.stmts[i])
    case Cond(op, l, r, t, f) =>
      && b.Cond? && op == b.cmp && ExprEquals(l, b.left) && ExprEquals(r, b.right)
      && StmtEquals(t, b.ifTrue) && StmtEquals(f, b.ifFalse)
    case Loop(body) => b.Loop? && StmtEquals(body, b.body)
    case Exit => b.Exit?
  }

  /** The classes' `equals` is exactly structural equality of the trees. */
  lemma {:induction false} LemmaExprEqualsIsEquality(a: Expr, b: Expr)
    ensures ExprEquals(a, b) <==> a == b
  {
    match a
    case Const(_) =>
    case Var(_) =>
    case Bin(op, l, r) =>
      if b.Bin? {
        LemmaExprEqualsIsEquality(l, b.lhs);
        LemmaExprEqualsIsEquality(r, b.rhs);
      }
  }

  lemma {:induction false} LemmaStmtEqualsIsEquality(a: Stmt, b: Stmt)
    ensures StmtEquals(a, b) <==> a == b
  {
    match a
    case Assign(x, e) =>
      if b.Assign? { LemmaExprEqualsIsEquality(e, b.expr); }
    case Block(xs) =>
      if b.Block? && |xs| == |b.stmts| {
        forall i | 0 <= i < |xs| ensures StmtEquals(xs[i], b.stmts[i]) <==> xs[i] == b.stmts[i] {
          LemmaStmtEqualsIsEquality(xs[i], b.stmts[i]);
        }
        if forall i :: 0 <= i < |xs| ==> xs[i] == b.stmts[i] {
          assert xs == b.stmts;
        }
      }
    case Cond(op, l, r, t, f) =>
      if b.Cond? {
        LemmaExprEqualsIsEquality(l, b.left);
        LemmaExprEqualsIsEquality(r, b.right);
        LemmaStmtEqualsIsEquality(t, b.ifTrue);
        LemmaStmtEqualsIsEquality(f, b.ifFalse);
      }
    case Loop(body) =>
      if b.Loop? { LemmaStmtEqualsIsEquality(body, b.body); }
    case Exit =>
  }
}
