/**
 * The `compile` methods of the AST nodes: each node prints Java source for itself onto a
 * `PrintWriter`, which the model records as the list of calls made (`Writer.Op`).
 *
 * Expressions are printed fully parenthesised, so the printed text determines the expression
 * (`LemmaCodeInjective`).
 * Java's double formatting is the parameter `fmt`.
 */
module Emitter {
  import opened Wrappers
  import opened Ast
  import opened Writer
  import Text

  /** The separator printed between the operands of a binary expression. */
  function Symbol(op: BinOp): (r: string)
    ensures |r| >= 2 && (r[0] == ' ' || r[0] == ',')
  {
    match op
    case Addition => " + "
    case Subtraction => " - "
    case Multiplication => " * "
    case Division => " / "
    case Exponentiation => ", "
  }

  /** What a binary expression prints before its left operand. */
  function Opening(op: BinOp): string
  {
    if op == Exponentiation then "Math.pow(" else "("
  }

  /** The comparison printed between the operands of a conditional. */
  function CmpSymbol(op: CmpOp): string
  {
    match op
    case EqualTo => " == "
    case LessThan => " < "
    case GreaterThan => " > "
  }

  /** An expression's `compile`: only `print` calls, at least one. */
  function CompileExpr(e: Expr, fmt: real -> string): (ops: seq<Op>)
    ensures AllPrints(ops) && |ops| >= 1
  {
    match e
    case Const(v) => [Print(fmt(v))]
    case Var(x) => [Print("context." + x)]
    case Bin(op, l, r) =>
      [Print(Opening(op))] + CompileExpr(l, fmt) + [Print(Symbol(op))] + CompileExpr(r, fmt) + [Print(")")]
  }

  /** The Java text of an expression, fully parenthesised. */
  function Code(e: Expr, fmt: real -> string): (t: string)
    ensures |t| > 0 || (e.Const? && fmt(e.value) == [])
  {
    match e
    case Const(v) => fmt(v)
    case Var(x) => "context." + x
    case Bin(op, l, r) => Opening(op) + Code(l, fmt) + Symbol(op) + Code(r, fmt) + ")"
  }

  /**
   * A statement's `compile`. A block prints "{" with `println`, then each statement followed by
   * a bare `println()`, then "}" -- the layout the conditional uses for a branch of two or more
   * statements.
   */
  function CompileStmt(s: Stmt, fmt: real -> string): (ops: seq<Op>)
    ensures |ops| >= 1 && Writes(ops[0])
    decreases StmtSize(s), 1
  {
    match s
    case Assign(x, e) => [Print("context." + x + " = ")] + CompileExpr(e, fmt) + [Print(";")]
    case Block(ss) => [PrintLine("{")] + CompileLines(ss, fmt) + [Print("}")]
    case Cond(op, l, r, t, f) =>
      [Print("if(")] + CompileExpr(l, fmt) + [Print(CmpSymbol(op))] + CompileExpr(r, fmt) + [Print(") ")]
        + CompileBranch(t, fmt) + [Print(" else ")] + CompileBranch(f, fmt)
    case Loop(b) => [Print("while (true) ")] + CompileStmt(b, fmt)
    case Exit => [Print("break;")]
  }

  /** The statements of a block, each followed by `println()`. */
  function CompileLines(ss: seq<Stmt>, fmt: real -> string): (ops: seq<Op>)
    ensures |ops| >= |ss|
    decreases StmtsSize(ss), 2
  {
    if ss == [] then [] else CompileStmt(ss[0], fmt) + [NewLine] + CompileLines(ss[1..], fmt)
  }

  /**
   * A conditional's branch: an empty block prints "{}", a one-statement block prints only its
   * statement, and any other statement prints as itself.
   */
  function CompileBranch(s: Stmt, fmt: real -> string): (ops: seq<Op>)
    ensures |ops| >= 1 && Writes(ops[0])
    decreases StmtSize(s), 2
  {
    if s.Block? && |s.stmts| == 0 then [Print("{}")]
    else if s.Block? && |s.stmts| == 1 then
      assert StmtsSize(s.stmts) == StmtSize(s.stmts[0]) + StmtsSize(s.stmts[1..]);
      CompileStmt(s.stmts[0], fmt)
    else CompileStmt(s, fmt)
  }

  // ------------------------------------------------ the text of expressions

  /** What an expression's `print` calls write is its text. */
  lemma {:induction false} LemmaCompiledText(e: Expr, fmt: real -> string)
    ensures Plain(CompileExpr(e, fmt)) == Code(e, fmt)
  {
    match e
    case Bin(op, l, r) =>
      var a, lo, m, ro, z := [Print(Opening(op))], CompileExpr(l, fmt), [Print(Symbol(op))],
        CompileExpr(r, fmt), [Print(")")];
      LemmaPlainAppend(a + lo + m + ro, z);
      LemmaPlainAppend(a + lo + m, ro);
      LemmaPlainAppend(a + lo, m);
      LemmaPlainAppend(a, lo);
      LemmaCompiledText(l, fmt);
      LemmaCompiledText(r, fmt);
    case _ =>
      assert Plain(CompileExpr(e, fmt)) == CompileExpr(e, fmt)[0].s + Plain([]);
  }

  /** Written through an indenting writer, an expression's text gets at most one prefix. */
  lemma LemmaExprIndented(prefix: string, e: Expr, fmt: real -> string, pending: bool)
    ensures Indented(prefix, CompileExpr(e, fmt), pending) == (if pending then prefix else "") + Code(e, fmt)
    ensures !PendingAfter(CompileExpr(e, fmt), pending)
  {
    LemmaPrintsOnly(prefix, CompileExpr(e, fmt), pending);
    LemmaCompiledText(e, fmt);
  }

  // ------------------------------------------------ the text determines the expression

  /** Characters that end a constant or a variable name in expression text. */
  predicate IsDelimiter(c: char)
  {
    c == ' ' || c == '(' || c == ')' || c == ','
  }

  predicate NoDelimiter(t: string)
  {
    forall k :: 0 <= k < |t| ==> !IsDelimiter(t[k])
  }

  /** What may follow a complete expression inside a larger one: nothing, ' ', ')' or ','. */
  predicate Follows(u: string)
  {
    u == [] || u[0] == ' ' || u[0] == ')' || u[0] == ','
  }

  /**
   * A literal as `Double.toString` writes a finite double: it starts with a digit or a minus sign
   * and holds no space, parenthesis or comma.
   */
  predicate IsLiteral(t: string)
  {
    |t| > 0 && (Text.IsDigit(t[0]) || t[0] == '-') && NoDelimiter(t)
  }

  /** Distinct values format differently, as `Double.toString` does for finite doubles. */
  ghost predicate Faithful(fmt: real -> string)
  {
    forall v, w :: fmt(v) == fmt(w) ==> v == w
  }

  /**
   * The expression's constants print as literals and its variable names hold no delimiter
   * (names from the parser are letters only).
   */
  ghost predicate Readable(e: Expr, fmt: real -> string)
  {
    match e
    case Const(v) => IsLiteral(fmt(v))
    case Var(x) => NoDelimiter(x)
    case Bin(_, l, r) => Readable(l, fmt) && Readable(r, fmt)
  }

  /** The length of the run of non-delimiters a text starts with. */
  function TokenLength(s: string): (n: nat)
    ensures n <= |s|
  {
    if s == [] || IsDelimiter(s[0]) then 0 else 1 + TokenLength(s[1..])
  }

  /** Which kind of expression a first character announces. */
  function StartKind(c: char): nat
  {
    if c == '(' then 0 else if c == 'M' then 1 else if c == 'c' then 2 else 3
  }

  function KindOf(e: Expr): nat
  {
    match e
    case Bin(op, _, _) => if op == Exponentiation then 1 else 0
    case Var(_) => 2
    case Const(_) => 3
  }

  lemma {:induction false} LemmaTokenLength(a: string, u: string)
    requires NoDelimiter(a) && Follows(u)
    ensures TokenLength(a + u) == |a|
    decreases |a|
  {
    if a == [] {
      assert a + u == u;
    } else {
      assert (a + u)[0] == a[0];
      assert (a + u)[1..] == a[1..] + u;
      LemmaTokenLength(a[1..], u);
    }
  }

  /** A token followed by what may follow an expression is the whole token. */
  lemma LemmaTokenPrefix(a: string, b: string, u: string, w: string)
    requires NoDelimiter(a) && NoDelimiter(b) && Follows(u) && Follows(w)
    requires a + u == b + w
    ensures a == b && u == w
  {
    LemmaTokenLength(a, u);
    LemmaTokenLength(b, w);
    assert a == (a + u)[..|a|] && b == (b + w)[..|b|];
    assert u == (a + u)[|a|..] && w == (b + w)[|b|..];
  }

  lemma LemmaDropPrefix(p: string, u: string, w: string)
    requires p + u == p + w
    ensures u == w
  {
    assert u == (p + u)[|p|..] && w == (p + w)[|p|..];
  }

  /** The first character of an expression's text tells its kind. */
  lemma LemmaStartKind(e: Expr, fmt: real -> string, u: string)
    requires Readable(e, fmt)
    ensures |Code(e, fmt)| > 0 && StartKind((Code(e, fmt) + u)[0]) == KindOf(e)
  {
    match e
    case Bin(op, l, r) => assert Code(e, fmt)[0] == Opening(op)[0];
    case Var(x) => assert Code(e, fmt)[0] == 'c';
    case Const(v) => assert Code(e, fmt)[0] == fmt(v)[0];
  }

  /** A binary expression's text, regrouped from the left for stripping piece by piece. */
  lemma LemmaBinText(op: BinOp, l: Expr, r: Expr, fmt: real -> string, u: string)
    ensures Code(Bin(op, l, r), fmt) + u ==
      Opening(op) + (Code(l, fmt) + (Symbol(op) + (Code(r, fmt) + (")" + u))))
  {
  }

  /** Separators of the same family that start equal texts are the same separator. */
  lemma LemmaSymbolPrefix(a: BinOp, b: BinOp, u: string, w: string)
    requires (a == Exponentiation) == (b == Exponentiation)
    requires Symbol(a) + u == Symbol(b) + w
    ensures a == b && u == w
  {
    var n := |Symbol(a)|;
    assert Symbol(a) == (Symbol(a) + u)[..n] && u == (Symbol(a) + u)[n..];
    assert Symbol(b) == (Symbol(b) + w)[..n] && w == (Symbol(b) + w)[n..];
  }

  /**
   * Wherever two expressions' texts start two equal texts, each followed by nothing or a
   * character that may follow an expression, the expressions and what follows them are equal.
   */
  lemma {:induction false} LemmaCodeUnique(e1: Expr, e2: Expr, fmt: real -> string, u1: string, u2: string)
    requires Faithful(fmt) && Readable(e1, fmt) && Readable(e2, fmt)
    requires Follows(u1) && Follows(u2)
    requires Code(e1, fmt) + u1 == Code(e2, fmt) + u2
    ensures e1 == e2 && u1 == u2
    decreases e1
  {
    LemmaStartKind(e1, fmt, u1);
    LemmaStartKind(e2, fmt, u2);
    match e1
    case Const(v) =>
      LemmaTokenPrefix(fmt(v), fmt(e2.value), u1, u2);
    case Var(x) =>
      assert e2.Var? && Code(e2, fmt) == "context." + e2.name;
      assert Code(e1, fmt) + u1 == "context." + (x + u1);
      assert Code(e2, fmt) + u2 == "context." + (e2.name + u2);
      LemmaDropPrefix("context.", x + u1, e2.name + u2);
      LemmaTokenPrefix(x, e2.name, u1, u2);
    case Bin(op, l, r) =>
      var op2, l2, r2 := e2.op, e2.lhs, e2.rhs;
      var w1, w2 := Code(r, fmt) + (")" + u1), Code(r2, fmt) + (")" + u2);
      LemmaBinText(op, l, r, fmt, u1);
      LemmaBinText(op2, l2, r2, fmt, u2);
      LemmaDropPrefix(Opening(op), Code(l, fmt) + (Symbol(op) + w1), Code(l2, fmt) + (Symbol(op2) + w2));
      LemmaCodeUnique(l, l2, fmt, Symbol(op) + w1, Symbol(op2) + w2);
      LemmaSymbolPrefix(op, op2, w1, w2);
      LemmaCodeUnique(r, r2, fmt, ")" + u1, ")" + u2);
      LemmaDropPrefix(")", u1, u2);
  }

  /** Different expressions print differently. */
  lemma LemmaCodeInjective(e1: Expr, e2: Expr, fmt: real -> string)
    requires Faithful(fmt) && Readable(e1, fmt) && Readable(e2, fmt)
    requires Code(e1, fmt) == Code(e2, fmt)
    ensures e1 == e2
  {
    assert Code(e1, fmt) + [] == Code(e2, fmt) + [];
    LemmaCodeUnique(e1, e2, fmt, [], []);
  }
}
