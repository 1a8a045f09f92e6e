/**
 * Names in a parsed tree: `parse` lower-cases its input before matching, and the `Variable`
 * rule reads names out of that text, so every variable of a parsed tree has a lower-case name.
 */
module Names {
  import opened Ast
  import P = Parser
  import opened Reading
  import Variables

  /** A name read from normalised text is a lower-case name: its letters came from that text. */
  lemma LemmaNameLower(x: string, s: string)
    requires P.Normal(s) && P.NameFrom(x, s)
    ensures LowerName(x)
  {
    forall k | 0 <= k < |x|
      ensures 'a' <= x[k] <= 'z' || x[k] == '_'
    {
      var j :| 0 <= j < |s| && s[j] == x[k];
    }
  }

  lemma {:induction false} LemmaExprLower(e: Expr, s: string)
    requires P.Normal(s) && P.ExprNamesFrom(e, s)
    ensures forall x | x in Variables.ExprNames(e) :: LowerName(x)
  {
    match e
    case Const(_) =>
    case Var(x) => LemmaNameLower(x, s);
    case Bin(_, l, r) =>
      LemmaExprLower(l, s);
      LemmaExprLower(r, s);
  }

  lemma {:induction false} LemmaStmtLower(st: Stmt, s: string)
    requires P.Normal(s) && P.StmtNamesFrom(st, s)
    ensures forall x | x in Variables.StmtNames(st) :: LowerName(x)
  {
    match st
    case Assign(x, e) =>
      LemmaNameLower(x, s);
      LemmaExprLower(e, s);
    case Block(ss) =>
      forall i | 0 <= i < |ss|
        ensures forall x | x in Variables.StmtNames(ss[i]) :: LowerName(x)
      {
        LemmaStmtLower(ss[i], s);
      }
    case Cond(_, l, r, t, f) =>
      LemmaExprLower(l, s);
      LemmaExprLower(r, s);
      LemmaStmtLower(t, s);
      LemmaStmtLower(f, s);
    case Loop(b) => LemmaStmtLower(b, s);
    case Exit =>
  }

  /** Every variable of the node has a lower-case name. */
  predicate LowerNames(n: Node)
  {
    forall x | x in Variables.FindAllVariables(n) :: LowerName(x)
  }

  lemma LemmaStmtLowerNames(st: Stmt, s: string)
    requires P.Normal(s) && P.StmtNamesFrom(st, s)
    ensures LowerNames(S(st))
  {
    LemmaStmtLower(st, s);
    Variables.LemmaNodeVariables(S(st));
  }

  lemma LemmaExprLowerNames(e: Expr, s: string)
    requires P.Normal(s) && P.ExprNamesFrom(e, s)
    ensures LowerNames(E(e))
  {
    LemmaExprLower(e, s);
    Variables.LemmaNodeVariables(E(e));
  }
}
