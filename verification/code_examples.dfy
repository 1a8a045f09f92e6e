/**
 * The Java text the `compile` methods print on a plain writer: the spelling of each operator,
 * the layout of every statement, the brace rules of a conditional's branches, and the texts
 * expected for the compiler's test cases, with `fmt` printing the whole numbers involved the
 * way `Double.toString` does ("1.0", "12.0").
 */
module CodeExamples {
  import opened Ast
  import opened Writer
  import opened Emitter

  /** `fmt` agrees with `Double.toString` on the constants below. */
  predicate JavaDoubles(fmt: real -> string)
  {
    fmt(0.0) == "0.0" && fmt(1.0) == "1.0" && fmt(2.0) == "2.0" && fmt(3.0) == "3.0"
      && fmt(10.0) == "10.0" && fmt(12.0) == "12.0" && fmt(17.0) == "17.0"
  }

  // ------------------------------------------------ expressions

  /** The Java spelling of each operator: infix for the four arithmetic ones, `Math.pow` for powers. */
  lemma LemmaOperatorCode(l: Expr, r: Expr, fmt: real -> string)
    ensures Plain(CompileExpr(Bin(Addition, l, r), fmt)) == "(" + Code(l, fmt) + " + " + Code(r, fmt) + ")"
    ensures Plain(CompileExpr(Bin(Subtraction, l, r), fmt)) == "(" + Code(l, fmt) + " - " + Code(r, fmt) + ")"
    ensures Plain(CompileExpr(Bin(Multiplication, l, r), fmt)) == "(" + Code(l, fmt) + " * " + Code(r, fmt) + ")"
    ensures Plain(CompileExpr(Bin(Division, l, r), fmt)) == "(" + Code(l, fmt) + " / " + Code(r, fmt) + ")"
    ensures Plain(CompileExpr(Bin(Exponentiation, l, r), fmt)) == "Math.pow(" + Code(l, fmt) + ", " + Code(r, fmt) + ")"
  {
    LemmaCompiledText(Bin(Addition, l, r), fmt);
    LemmaCompiledText(Bin(Subtraction, l, r), fmt);
    LemmaCompiledText(Bin(Multiplication, l, r), fmt);
    LemmaCompiledText(Bin(Division, l, r), fmt);
    LemmaCompiledText(Bin(Exponentiation, l, r), fmt);
  }

  /** "x plus 1" prints "(context.x + 1.0)". */
  lemma LemmaSumCode(fmt: real -> string)
    requires JavaDoubles(fmt)
    ensures Plain(CompileExpr(Bin(Addition, Var("x"), Const(1.0)), fmt)) == "(context.x + 1.0)"
  {
    LemmaCompiledText(Bin(Addition, Var("x"), Const(1.0)), fmt);
  }

  /** "x plus 3" prints "(context.x + 3.0)". */
  lemma LemmaXPlus3Code(fmt: real -> string)
    requires JavaDoubles(fmt)
    ensures Code(Bin(Addition, Var("x"), Const(3.0)), fmt) == "(context.x + 3.0)"
  {
  }

  lemma LemmaNestedText()
    ensures "(" + "2.0" + " - " + "(context.x + 3.0)" + ")" == "(2.0 - (context.x + 3.0))"
  {
  }

  /** "2 minus (x plus 3)" prints "(2.0 - (context.x + 3.0))": the parentheses are kept. */
  lemma LemmaNestedCode(fmt: real -> string)
    requires JavaDoubles(fmt)
    ensures Plain(CompileExpr(Bin(Subtraction, Const(2.0), Bin(Addition, Var("x"), Const(3.0))), fmt))
      == "(2.0 - (context.x + 3.0))"
  {
    LemmaCompiledText(Bin(Subtraction, Const(2.0), Bin(Addition, Var("x"), Const(3.0))), fmt);
    LemmaXPlus3Code(fmt);
    LemmaNestedText();
  }

  // ------------------------------------------------ statements

  /** Each text followed by a line break. */
  function Terminated(ts: seq<string>): string
  {
    if ts == [] then "" else ts[0] + "\n" + Terminated(ts[1..])
  }

  /** What each statement of a list prints on its own. */
  function StmtTexts(ss: seq<Stmt>, fmt: real -> string): (ts: seq<string>)
    ensures |ts| == |ss|
  {
    seq(|ss|, i requires 0 <= i < |ss| => Plain(CompileStmt(ss[i], fmt)))
  }

  /** An assignment prints "context.<name> = <expression>;". */
  lemma LemmaAssignCode(x: string, e: Expr, fmt: real -> string)
    ensures Plain(CompileStmt(Assign(x, e), fmt)) == "context." + x + " = " + Code(e, fmt) + ";"
  {
    var head, body, tail := [Print("context." + x + " = ")], CompileExpr(e, fmt), [Print(";")];
    LemmaPlainAppend(head + body, tail);
    LemmaPlainAppend(head, body);
    LemmaCompiledText(e, fmt);
    assert Plain(head) == "context." + x + " = ";
    assert Plain(tail) == ";";
  }

  /** "set foo to bar minus 10" prints "context.foo = (context.bar - 10.0);". */
  lemma LemmaAssignExample(fmt: real -> string)
    requires JavaDoubles(fmt)
    ensures Plain(CompileStmt(Assign("foo", Bin(Subtraction, Var("bar"), Const(10.0))), fmt))
      == "context.foo = (context.bar - 10.0);"
  {
    LemmaAssignCode("foo", Bin(Subtraction, Var("bar"), Const(10.0)), fmt);
  }

  /** "exit loop" prints "break;". */
  lemma LemmaExitCode(fmt: real -> string)
    ensures Plain(CompileStmt(Exit, fmt)) == "break;"
  {
    assert Plain(CompileStmt(Exit, fmt)) == "break;" + Plain([]);
  }

  /** The statements of a block print one after the other, each followed by a line break. */
  lemma {:induction false} LemmaLinesCode(ss: seq<Stmt>, fmt: real -> string)
    ensures Plain(CompileLines(ss, fmt)) == Terminated(StmtTexts(ss, fmt))
  {
    if ss != [] {
      var first, rest := CompileStmt(ss[0], fmt), CompileLines(ss[1..], fmt);
      var ts := StmtTexts(ss, fmt);
      assert CompileLines(ss, fmt) == first + [NewLine] + rest;
      LemmaPlainAppend(first + [NewLine], rest);
      LemmaPlainAppend(first, [NewLine]);
      assert Plain([NewLine]) == "\n";
      LemmaLinesCode(ss[1..], fmt);
      assert ts[1..] == StmtTexts(ss[1..], fmt);
      assert ts[0] == Plain(first);
      assert Terminated(ts) == ts[0] + "\n" + Terminated(ts[1..]);
    }
  }

  /** A block prints "{" on a line of its own, its statements each on their own line, then "}". */
  lemma LemmaBlockCode(ss: seq<Stmt>, fmt: real -> string)
    ensures Plain(CompileStmt(Block(ss), fmt)) == "{\n" + Terminated(StmtTexts(ss, fmt)) + "}"
  {
    LemmaPlainAppend([PrintLine("{")] + CompileLines(ss, fmt), [Print("}")]);
    LemmaPlainAppend([PrintLine("{")], CompileLines(ss, fmt));
    LemmaLinesCode(ss, fmt);
    assert Plain([PrintLine("{")]) == "{\n";
    assert Plain([Print("}")]) == "}";
  }

  /**
   * The brace rules of a conditional's branch: an empty block prints "{}", a block of one
   * statement prints that statement without braces, a longer block prints braces with its
   * statements on lines of their own, and any other statement prints as itself.
   */
  lemma LemmaBranchCode(s: Stmt, fmt: real -> string)
    ensures s.Block? && s.stmts == [] ==> Plain(CompileBranch(s, fmt)) == "{}"
    ensures s.Block? && |s.stmts| == 1 ==> Plain(CompileBranch(s, fmt)) == Plain(CompileStmt(s.stmts[0], fmt))
    ensures s.Block? && |s.stmts| >= 2 ==>
      Plain(CompileBranch(s, fmt)) == "{\n" + Terminated(StmtTexts(s.stmts, fmt)) + "}"
    ensures !s.Block? ==> Plain(CompileBranch(s, fmt)) == Plain(CompileStmt(s, fmt))
  {
    if s.Block? && s.stmts == [] {
      assert Plain(CompileBranch(s, fmt)) == "{}" + Plain([]);
    } else if s.Block? && |s.stmts| >= 2 {
      LemmaBlockCode(s.stmts, fmt);
    }
  }

  /** A conditional prints "if(", the comparison, ") ", its true branch, " else " and its false branch. */
  lemma LemmaCondCode(op: CmpOp, l: Expr, r: Expr, t: Stmt, f: Stmt, fmt: real -> string)
    ensures Plain(CompileStmt(Cond(op, l, r, t, f), fmt)) ==
      "if(" + Code(l, fmt) + CmpSymbol(op) + Code(r, fmt) + ") " + Plain(CompileBranch(t, fmt))
        + " else " + Plain(CompileBranch(f, fmt))
  {
    var a, lo, m, ro, z := [Print("if(")], CompileExpr(l, fmt), [Print(CmpSymbol(op))], CompileExpr(r, fmt), [Print(") ")];
    var th, el, ot := CompileBranch(t, fmt), [Print(" else ")], CompileBranch(f, fmt);
    assert CompileStmt(Cond(op, l, r, t, f), fmt) == a + lo + m + ro + z + th + el + ot;
    LemmaPlainAppend(a + lo + m + ro + z + th + el, ot);
    LemmaPlainAppend(a + lo + m + ro + z + th, el);
    LemmaPlainAppend(a + lo + m + ro + z, th);
    LemmaPlainAppend(a + lo + m + ro, z);
    LemmaPlainAppend(a + lo + m, ro);
    LemmaPlainAppend(a + lo, m);
    LemmaPlainAppend(a, lo);
    LemmaCompiledText(l, fmt);
    LemmaCompiledText(r, fmt);
    assert Plain(a) == "if(" && Plain(m) == CmpSymbol(op) && Plain(z) == ") " && Plain(el) == " else ";
  }

  /** A loop prints "while (true) " and then its body. */
  lemma LemmaLoopCode(b: Stmt, fmt: real -> string)
    ensures Plain(CompileStmt(Loop(b), fmt)) == "while (true) " + Plain(CompileStmt(b, fmt))
  {
    LemmaPlainAppend([Print("while (true) ")], CompileStmt(b, fmt));
    assert Plain([Print("while (true) ")]) == "while (true) ";
  }

  // ------------------------------------------------ the compiler's test cases

  /** "set a to x" prints "context.a = context.x;". */
  lemma LemmaSetAToX(fmt: real -> string)
    ensures Plain(CompileStmt(Assign("a", Var("x")), fmt)) == "context.a = context.x;"
  {
    LemmaAssignCode("a", Var("x"), fmt);
  }

  /** "set b to x" prints "context.b = context.x;". */
  lemma LemmaSetBToX(fmt: real -> string)
    ensures Plain(CompileStmt(Assign("b", Var("x")), fmt)) == "context.b = context.x;"
  {
    LemmaAssignCode("b", Var("x"), fmt);
  }

  /** "set <name> to <n>" prints "context.<name> = <n as a double>;". */
  lemma LemmaSetConstCode(x: string, v: real, fmt: real -> string)
    ensures Plain(CompileStmt(Assign(x, Const(v)), fmt)) == "context." + x + " = " + fmt(v) + ";"
  {
    LemmaAssignCode(x, Const(v), fmt);
  }

  lemma LemmaIfText()
    ensures "if(" + ("context." + "x") + " < " + "12.0" + ") " == "if(context.x < 12.0) "
  {
  }

  /** The comparison "x is less than 12" and the opening of its conditional. */
  lemma LemmaLessThan12(t: Stmt, f: Stmt, fmt: real -> string)
    requires JavaDoubles(fmt)
    ensures Plain(CompileStmt(Cond(LessThan, Var("x"), Const(12.0), t, f), fmt)) ==
      "if(context.x < 12.0) " + Plain(CompileBranch(t, fmt)) + " else " + Plain(CompileBranch(f, fmt))
  {
    LemmaCondCode(LessThan, Var("x"), Const(12.0), t, f, fmt);
    LemmaIfText();
  }

  /**
   * "if x is less than 12 then set a to x" has the empty block as its else branch, which prints
   * as "{}": "if(context.x < 12.0) context.a = context.x; else {}".
   */
  lemma LemmaMissingElseCode(fmt: real -> string)
    requires JavaDoubles(fmt)
    ensures Plain(CompileStmt(Cond(LessThan, Var("x"), Const(12.0), Assign("a", Var("x")), EmptyBlock), fmt)) ==
      "if(context.x < 12.0) " + "context.a = context.x;" + " else " + "{}"
  {
    LemmaLessThan12(Assign("a", Var("x")), EmptyBlock, fmt);
    LemmaBranchCode(Assign("a", Var("x")), fmt);
    LemmaBranchCode(EmptyBlock, fmt);
    LemmaSetAToX(fmt);
  }

  /** "if x is less than 12 then set a to x else set b to 0" prints both branches without braces. */
  lemma LemmaBothBranchesCode(fmt: real -> string)
    requires JavaDoubles(fmt)
    ensures Plain(CompileStmt(Cond(LessThan, Var("x"), Const(12.0), Assign("a", Var("x")), Assign("b", Const(0.0))), fmt)) ==
      "if(context.x < 12.0) " + "context.a = context.x;" + " else " + ("context." + "b" + " = " + "0.0" + ";")
  {
    LemmaLessThan12(Assign("a", Var("x")), Assign("b", Const(0.0)), fmt);
    LemmaBranchCode(Assign("a", Var("x")), fmt);
    LemmaBranchCode(Assign("b", Const(0.0)), fmt);
    LemmaSetAToX(fmt);
    LemmaSetConstCode("b", 0.0, fmt);
  }

  /** Two statements as a list of lines. */
  lemma LemmaTwoLines(s1: Stmt, s2: Stmt, fmt: real -> string)
    ensures Terminated(StmtTexts([s1, s2], fmt)) ==
      Plain(CompileStmt(s1, fmt)) + "\n" + Plain(CompileStmt(s2, fmt)) + "\n"
  {
    var ts := StmtTexts([s1, s2], fmt);
    assert ts[1..][1..] == [];
    assert Terminated(ts[1..]) == ts[1] + "\n" + "";
  }

  /** A braced branch of two statements. */
  lemma LemmaTwoStatementBranch(s1: Stmt, s2: Stmt, fmt: real -> string)
    ensures Plain(CompileBranch(Block([s1, s2]), fmt)) ==
      "{\n" + (Plain(CompileStmt(s1, fmt)) + "\n" + Plain(CompileStmt(s2, fmt)) + "\n") + "}"
  {
    LemmaBranchCode(Block([s1, s2]), fmt);
    LemmaTwoLines(s1, s2, fmt);
  }

  /**
   * "if x is less than 12 then: set a to x. set b to 1. else: set a to 1. set b to x. end of
   * conditional" prints both branches in braces, each statement on a line of its own.
   */
  lemma LemmaBracedBranchesCode(fmt: real -> string)
    requires JavaDoubles(fmt)
    ensures var t := Block([Assign("a", Var("x")), Assign("b", Const(1.0))]);
      var f := Block([Assign("a", Const(1.0)), Assign("b", Var("x"))]);
      Plain(CompileStmt(Cond(LessThan, Var("x"), Const(12.0), t, f), fmt)) ==
        "if(context.x < 12.0) "
          + ("{\n" + ("context.a = context.x;" + "\n" + ("context." + "b" + " = " + "1.0" + ";") + "\n") + "}")
          + " else "
          + ("{\n" + (("context." + "a" + " = " + "1.0" + ";") + "\n" + "context.b = context.x;" + "\n") + "}")
  {
    var t := Block([Assign("a", Var("x")), Assign("b", Const(1.0))]);
    var f := Block([Assign("a", Const(1.0)), Assign("b", Var("x"))]);
    LemmaLessThan12(t, f, fmt);
    LemmaTwoStatementBranch(Assign("a", Var("x")), Assign("b", Const(1.0)), fmt);
    LemmaTwoStatementBranch(Assign("a", Const(1.0)), Assign("b", Var("x")), fmt);
    LemmaSetAToX(fmt);
    LemmaSetBToX(fmt);
    LemmaSetConstCode("b", 1.0, fmt);
    LemmaSetConstCode("a", 1.0, fmt);
  }

  lemma LemmaSquareText()
    ensures "Math.pow(" + ("context." + "x") + ", " + "2.0" + ")" == "Math.pow(context.x, 2.0)"
  {
  }

  /** "set y to x squared" prints "context.y = Math.pow(context.x, 2.0);". */
  lemma LemmaSetYToXSquared(fmt: real -> string)
    requires JavaDoubles(fmt)
    ensures Plain(CompileStmt(Assign("y", Bin(Exponentiation, Var("x"), Const(2.0))), fmt)) ==
      "context." + "y" + " = " + "Math.pow(context.x, 2.0)" + ";"
  {
    LemmaAssignCode("y", Bin(Exponentiation, Var("x"), Const(2.0)), fmt);
    LemmaSquareText();
  }

  /**
   * "set x to 17. set y to x squared." as a block prints "{", "context.x = 17.0;",
   * "context.y = Math.pow(context.x, 2.0);" and "}", each on a line of its own.
   */
  lemma LemmaBlockExample(fmt: real -> string)
    requires JavaDoubles(fmt)
    ensures Plain(CompileStmt(Block([Assign("x", Const(17.0)), Assign("y", Bin(Exponentiation, Var("x"), Const(2.0)))]), fmt)) ==
      "{\n" + (("context." + "x" + " = " + "17.0" + ";") + "\n"
        + ("context." + "y" + " = " + "Math.pow(context.x, 2.0)" + ";") + "\n") + "}"
  {
    var a, b := Assign("x", Const(17.0)), Assign("y", Bin(Exponentiation, Var("x"), Const(2.0)));
    LemmaBlockCode([a, b], fmt);
    LemmaTwoLines(a, b, fmt);
    LemmaSetConstCode("x", 17.0, fmt);
    LemmaSetYToXSquared(fmt);
  }

  /** "set x to x plus 1" prints "context.x = (context.x + 1.0);". */
  lemma LemmaIncrementCode(fmt: real -> string)
    requires JavaDoubles(fmt)
    ensures Plain(CompileStmt(Assign("x", Bin(Addition, Var("x"), Const(1.0))), fmt)) ==
      "context." + "x" + " = " + "(context.x + 1.0)" + ";"
  {
    LemmaAssignCode("x", Bin(Addition, Var("x"), Const(1.0)), fmt);
    LemmaSumCode(fmt);
    LemmaCompiledText(Bin(Addition, Var("x"), Const(1.0)), fmt);
  }

  /** "loop: set x to x plus 1. end of loop" prints "while (true) " and the body in braces. */
  lemma LemmaLoopExample(fmt: real -> string)
    requires JavaDoubles(fmt)
    ensures Plain(CompileStmt(Loop(Block([Assign("x", Bin(Addition, Var("x"), Const(1.0)))])), fmt)) ==
      "while (true) " + ("{\n" + (("context." + "x" + " = " + "(context.x + 1.0)" + ";") + "\n") + "}")
  {
    var a := Assign("x", Bin(Addition, Var("x"), Const(1.0)));
    LemmaLoopCode(Block([a]), fmt);
    LemmaBlockCode([a], fmt);
    var ts := StmtTexts([a], fmt);
    assert ts[1..] == [];
    assert Terminated(ts) == ts[0] + "\n" + "";
    LemmaIncrementCode(fmt);
  }
}
