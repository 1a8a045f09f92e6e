/**
 * The programs of the interpreter's and compiler's end-to-end tests, as the trees the parser
 * builds for them, run by the model: the counting loop, the three comparisons, and the program
 * run through the compiler.
 */
module Scenarios {
  import opened Wrappers
  import opened Ast
  import opened Context
  import opened Interpreter
  import opened Execution
  import Variables
  import JavaMeaning
  import OrderedMap
  import Compiler

  // ------------------------------------------------ single statements run

  /** `run` of an assignment whose right-hand side has a value: the target gets it, nothing else changes. */
  lemma LemmaRunAssign(x: string, e: Expr, ctx: Context, fuel: nat, dz: real -> real)
    requires Denote(e, ctx.vars, dz).Some?
    ensures Run(Assign(x, e), ctx, fuel, dz).Normal?
    ensures Get(Run(Assign(x, e), ctx, fuel, dz).ctx, x) == Denote(e, ctx.vars, dz).value
    ensures forall y :: y != x ==> Get(Run(Assign(x, e), ctx, fuel, dz).ctx, y) == Get(ctx, y)
  {
    var started := Trace(ctx, S(Assign(x, e)), Started, None);
    LemmaAssign(x, e, started, fuel, dz);
    LemmaRunIsDoRun(Assign(x, e), ctx, fuel, dz);
  }

  // ------------------------------------------------ the counting loop

  /** "set x to x plus 1" */
  const Increment: Stmt := Assign("x", Bin(Addition, Var("x"), Const(1.0)))

  /** "if x equals 10 then exit loop" */
  const CheckTen: Stmt := Cond(EqualTo, Var("x"), Const(10.0), Exit, EmptyBlock)

  /** "set y to y plus x squared" */
  const Accumulate: Stmt := Assign("y", Bin(Addition, Var("y"), Bin(Exponentiation, Var("x"), Const(2.0))))

  const LoopBody: Stmt := Block([Increment, CheckTen, Accumulate])

  /** "loop: set x to x plus 1. if x equals 10 then exit loop. set y to y plus x squared. end of loop." */
  const CountingProgram: Stmt := Block([Loop(LoopBody)])

  /** 1² + 2² + … + k². */
  function SumSquares(k: nat): nat
  {
    if k == 0 then 0 else SumSquares(k - 1) + k * k
  }

  /** A whole number squared by repeated multiplication. */
  lemma LemmaPowerTwo(n: nat)
    ensures Power(n as real, 2) == (n * n) as real
  {
    assert Power(n as real, 1) == n as real;
  }

  lemma LemmaIncrement(ctx: Context, fuel: nat, dz: real -> real)
    ensures var o := Run(Increment, ctx, fuel, dz);
      o.Normal? && Get(o.ctx, "x") == Get(ctx, "x") + 1.0 && Get(o.ctx, "y") == Get(ctx, "y")
  {
    LemmaRunAssign("x", Bin(Addition, Var("x"), Const(1.0)), ctx, fuel, dz);
  }

  lemma LemmaCheckTen(ctx: Context, fuel: nat, dz: real -> real)
    ensures var o := Run(CheckTen, ctx, fuel, dz);
      (if Get(ctx, "x") == 10.0 then o.Exited? else o.Normal?) && o.ctx.vars == ctx.vars
  {
    var started := Trace(ctx, S(CheckTen), Started, None);
    LemmaCondOperandsUntraced(EqualTo, Var("x"), Const(10.0), Exit, EmptyBlock, started, fuel, dz);
    LemmaRunIsDoRun(CheckTen, ctx, fuel, dz);
  }

  /** A whole exponent from 2 up is the natural power. */
  lemma LemmaWholePower(a: real, n: nat)
    requires 2 <= n <= Int32Max
    ensures PowValue(a, n as real) == Some(Power(a, n))
  {
    assert Ceil(n as real) == n;
  }

  /** "y plus x to the power of n" means y + xⁿ. */
  lemma LemmaPlusPower(y: string, x: string, n: nat, vars: Vars, dz: real -> real)
    requires 2 <= n <= Int32Max
    ensures Denote(Bin(Addition, Var(y), Bin(Exponentiation, Var(x), Const(n as real))), vars, dz)
      == Some(Read(vars, y) + Power(Read(vars, x), n))
  {
    LemmaWholePower(Read(vars, x), n);
    var p := Bin(Exponentiation, Var(x), Const(n as real));
    assert Denote(p, vars, dz) == PowValue(Read(vars, x), n as real);
  }

  lemma LemmaAccumulate(ctx: Context, fuel: nat, dz: real -> real)
    ensures var o := Run(Accumulate, ctx, fuel, dz);
      o.Normal? && Get(o.ctx, "y") == Get(ctx, "y") + Power(Get(ctx, "x"), 2) && Get(o.ctx, "x") == Get(ctx, "x")
  {
    LemmaPlusPower("y", "x", 2, ctx.vars, dz);
    LemmaRunAssign("y", Bin(Addition, Var("y"), Bin(Exponentiation, Var("x"), Const(2.0))), ctx, fuel, dz);
  }

  /**
   * One round of the loop body from x = k: x becomes k + 1, and then either the round ends by the
   * exit signal (k + 1 = 10) or (k + 1)² is added to y.
   */
  lemma LemmaRound(k: nat, sum: real, ctx: Context, fuel: nat, dz: real -> real)
    requires k < 10 && Get(ctx, "x") == k as real && Get(ctx, "y") == sum
    ensures var o := Run(LoopBody, ctx, fuel, dz);
      if k == 9 then o.Exited? && Get(o.ctx, "x") == 10.0 && Get(o.ctx, "y") == sum
      else o.Normal? && Get(o.ctx, "x") == (k + 1) as real && Get(o.ctx, "y") == sum + Power((k + 1) as real, 2)
  {
    var ss := [Increment, CheckTen, Accumulate];
    var started := Trace(ctx, S(LoopBody), Started, None);
    LemmaRunIsDoRun(LoopBody, ctx, fuel, dz);
    LemmaIncrement(started, fuel, dz);
    var o1 := Run(Increment, started, fuel, dz);
    assert RunAll(ss, started, fuel, dz) == RunAll(ss[1..], o1.ctx, fuel, dz);
    LemmaCheckTen(o1.ctx, fuel, dz);
    var o2 := Run(CheckTen, o1.ctx, fuel, dz);
    if k == 9 {
      assert RunAll(ss[1..], o1.ctx, fuel, dz) == o2;
    } else {
      assert ss[1..][1..] == [Accumulate];
      assert RunAll(ss[1..], o1.ctx, fuel, dz) == RunAll([Accumulate], o2.ctx, fuel, dz);
      LemmaRunAllSingle(Accumulate, o2.ctx, fuel, dz);
      LemmaAccumulate(o2.ctx, fuel, dz);
    }
  }

  /** 1² + … + 9² = 285. */
  lemma LemmaSumSquaresNine()
    ensures SumSquares(9) == 285
  {
    assert SumSquares(3) == 14;
    assert SumSquares(6) == 91;
  }

  /** Before round k + 1: x = k and y = 1² + … + k². */
  predicate AtRound(ctx: Context, k: nat)
  {
    Get(ctx, "x") == k as real && Get(ctx, "y") == SumSquares(k) as real
  }

  /**
   * The counting loop, entered before round k + 1 with enough fuel for the rounds left, ends
   * normally after round 10 with x = 10 and y = 1² + … + 9².
   */
  lemma {:induction false} LemmaRepeatRounds(k: nat, ctx: Context, fuel: nat, dz: real -> real) returns (last: Context)
    requires k < 10 && AtRound(ctx, k) && fuel + k >= 10
    ensures Repeat(LoopBody, ctx, fuel, dz) == Normal(last)
    ensures Get(last, "x") == 10.0 && Get(last, "y") == SumSquares(9) as real
    decreases 10 - k
  {
    var rest: nat := fuel - 1;
    if k < 9 {
      var next := LemmaNextRound(k, ctx, rest, fuel, dz);
      last := LemmaRepeatRounds(k + 1, next, rest, dz);
    } else {
      last := LemmaTenthRound(ctx, rest, fuel, dz);
    }
  }

  /** One of the first nine rounds, run with `fuel` inside a loop given `more`: the loop goes on from the next round. */
  lemma LemmaNextRound(k: nat, ctx: Context, fuel: nat, more: nat, dz: real -> real) returns (next: Context)
    requires k < 9 && AtRound(ctx, k) && more == fuel + 1
    ensures Run(LoopBody, ctx, fuel, dz) == Normal(next) && AtRound(next, k + 1)
    ensures Repeat(LoopBody, ctx, more, dz) == Repeat(LoopBody, next, fuel, dz)
  {
    LemmaRoundSum(k, ctx, fuel, dz);
    next := Run(LoopBody, ctx, fuel, dz).ctx;
    LemmaRepeatAgain(LoopBody, ctx, fuel, more, dz);
  }

  /** The tenth round: x reaches 10 and the exit signal ends the loop normally. */
  lemma LemmaTenthRound(ctx: Context, fuel: nat, more: nat, dz: real -> real) returns (last: Context)
    requires AtRound(ctx, 9) && more == fuel + 1
    ensures Repeat(LoopBody, ctx, more, dz) == Normal(last)
    ensures Get(last, "x") == 10.0 && Get(last, "y") == SumSquares(9) as real
  {
    LemmaRound(9, SumSquares(9) as real, ctx, fuel, dz);
    last := Run(LoopBody, ctx, fuel, dz).ctx;
    LemmaRepeatExits(LoopBody, ctx, fuel, more, dz);
  }

  /** A round run with `fuel` that ends normally is followed by the next one, with that fuel. */
  lemma LemmaRepeatAgain(body: Stmt, ctx: Context, fuel: nat, more: nat, dz: real -> real)
    requires more == fuel + 1 && Run(body, ctx, fuel, dz).Normal?
    ensures Repeat(body, ctx, more, dz) == Repeat(body, Run(body, ctx, fuel, dz).ctx, fuel, dz)
  {
  }

  /** A round run with `fuel` that ends by the exit signal ends the loop normally. */
  lemma LemmaRepeatExits(body: Stmt, ctx: Context, fuel: nat, more: nat, dz: real -> real)
    requires more == fuel + 1 && Run(body, ctx, fuel, dz).Exited?
    ensures Repeat(body, ctx, more, dz) == Normal(Run(body, ctx, fuel, dz).ctx)
  {
  }

  /** A round before the last keeps y the sum of the squares up to x. */
  lemma LemmaRoundSum(k: nat, ctx: Context, fuel: nat, dz: real -> real)
    requires k < 9 && AtRound(ctx, k)
    ensures var o := Run(LoopBody, ctx, fuel, dz); o.Normal? && AtRound(o.ctx, k + 1)
  {
    LemmaRound(k, SumSquares(k) as real, ctx, fuel, dz);
    LemmaPowerTwo(k + 1);
  }

  /** The loop test: run from a fresh context with ten rounds of fuel, it leaves x = 10 and y = 285. */
  lemma LemmaCountingLoop(fuel: nat, dz: real -> real)
    requires fuel >= 10
    ensures var o := Run(CountingProgram, Fresh, fuel, dz); o.Normal? && Get(o.ctx, "x") == 10.0 && Get(o.ctx, "y") == 285.0
  {
    var c1 := Trace(Fresh, S(CountingProgram), Started, None);
    LemmaRunIsDoRun(CountingProgram, Fresh, fuel, dz);
    LemmaRunAllSingle(Loop(LoopBody), c1, fuel, dz);
    var c2 := Trace(c1, S(Loop(LoopBody)), Started, None);
    LemmaRunIsDoRun(Loop(LoopBody), c1, fuel, dz);
    LemmaGetUnset("x");
    LemmaGetUnset("y");
    assert AtRound(c2, 0);
    var last := LemmaRepeatRounds(0, c2, fuel, dz);
    LemmaSumSquaresNine();
  }

  // ------------------------------------------------ the three comparisons

  /** "if x <op> 12 then set <name> to x else set <name> to <name> minus 1" */
  function Either(op: CmpOp, name: string): Stmt
  {
    Cond(op, Var("x"), Const(12.0), Assign(name, Var("x")), Assign(name, Bin(Subtraction, Var(name), Const(1.0))))
  }

  const ComparingProgram: Stmt := Block([Either(LessThan, "lt"), Either(EqualTo, "eq"), Either(GreaterThan, "gt")])

  /** One comparison: exactly one branch runs, and only `name` changes. */
  lemma LemmaEither(op: CmpOp, name: string, ctx: Context, fuel: nat, dz: real -> real) returns (next: Context)
    requires name != "x"
    ensures Run(Either(op, name), ctx, fuel, dz) == Normal(next)
    ensures Get(next, name) == Expected(op, Get(ctx, "x"), Get(ctx, name))
    ensures forall other :: other != name ==> Get(next, other) == Get(ctx, other)
  {
    var v := Get(ctx, "x");
    var t := Assign(name, Var("x"));
    var down := Bin(Subtraction, Var(name), Const(1.0));
    var f := Assign(name, down);
    var started := Trace(ctx, S(Either(op, name)), Started, None);
    assert started.vars == ctx.vars;
    assert Denote(Var("x"), started.vars, dz) == Some(v);
    LemmaCondOperandsUntraced(op, Var("x"), Const(12.0), t, f, started, fuel, dz);
    LemmaRunIsDoRun(Either(op, name), ctx, fuel, dz);
    if Compare(op, v, 12.0) {
      assert DoRun(Either(op, name), started, fuel, dz) == DoRun(t, started, fuel, dz);
      LemmaAssign(name, Var("x"), started, fuel, dz);
    } else {
      assert DoRun(Either(op, name), started, fuel, dz) == DoRun(f, started, fuel, dz);
      assert Denote(down, started.vars, dz) == Some(Get(ctx, name) - 1.0);
      LemmaAssign(name, down, started, fuel, dz);
    }
    next := Run(Either(op, name), ctx, fuel, dz).ctx;
  }

  /** The value a comparison leaves in its variable when x is `v` and the variable was `prev`. */
  function Expected(op: CmpOp, v: real, prev: real): real
  {
    if Compare(op, v, 12.0) then v else prev - 1.0
  }

  /**
   * The comparisons program from any context: each of lt, eq and gt becomes x when its
   * comparison with 12 holds and is decremented otherwise; x is left alone.
   */
  lemma LemmaComparingProgram(ctx: Context, fuel: nat, dz: real -> real) returns (last: Context)
    ensures Run(ComparingProgram, ctx, fuel, dz) == Normal(last)
    ensures var v := Get(ctx, "x");
      Get(last, "x") == v &&
      Get(last, "lt") == Expected(LessThan, v, Get(ctx, "lt")) &&
      Get(last, "eq") == Expected(EqualTo, v, Get(ctx, "eq")) &&
      Get(last, "gt") == Expected(GreaterThan, v, Get(ctx, "gt"))
  {
    var ss := [Either(LessThan, "lt"), Either(EqualTo, "eq"), Either(GreaterThan, "gt")];
    var started := Trace(ctx, S(ComparingProgram), Started, None);
    assert forall name :: Get(started, name) == Get(ctx, name);
    LemmaRunIsDoRun(ComparingProgram, ctx, fuel, dz);
    var n1 := LemmaEither(LessThan, "lt", started, fuel, dz);
    var n2 := LemmaEither(EqualTo, "eq", n1, fuel, dz);
    var n3 := LemmaEither(GreaterThan, "gt", n2, fuel, dz);
    assert RunAll(ss, started, fuel, dz) == RunAll(ss[1..], n1, fuel, dz);
    assert ss[1..][1..] == [ss[2]];
    assert RunAll(ss[1..], n1, fuel, dz) == RunAll([ss[2]], n2, fuel, dz);
    LemmaRunAllSingle(ss[2], n2, fuel, dz);
    last := Run(ComparingProgram, ctx, fuel, dz).ctx;
    assert forall name :: Get(last, name) == Get(n3, name);
    assert Get(n3, "x") == Get(n2, "x") && Get(n3, "lt") == Get(n2, "lt") && Get(n3, "eq") == Get(n2, "eq");
    assert Get(n2, "x") == Get(n1, "x") == Get(ctx, "x") && Get(n2, "lt") == Get(n1, "lt");
    assert Get(n1, "eq") == Get(ctx, "eq") && Get(n2, "gt") == Get(n1, "gt") == Get(ctx, "gt");
  }

  /** The comparisons test: x = 11, then 12, then 13, each run continuing from the last. */
  lemma LemmaComparisonsExample(fuel: nat, dz: real -> real)
    ensures var r1 := Run(ComparingProgram, Set(Fresh, "x", 11.0), fuel, dz);
      r1.Normal? && Get(r1.ctx, "lt") == 11.0 && Get(r1.ctx, "eq") == -1.0 && Get(r1.ctx, "gt") == -1.0 &&
      var r2 := Run(ComparingProgram, Set(r1.ctx, "x", 12.0), fuel, dz);
      r2.Normal? && Get(r2.ctx, "lt") == 10.0 && Get(r2.ctx, "eq") == 12.0 && Get(r2.ctx, "gt") == -2.0 &&
      var r3 := Run(ComparingProgram, Set(r2.ctx, "x", 13.0), fuel, dz);
      r3.Normal? && Get(r3.ctx, "lt") == 9.0 && Get(r3.ctx, "eq") == 11.0 && Get(r3.ctx, "gt") == 13.0
  {
    LemmaGetUnset("lt");
    LemmaGetUnset("eq");
    LemmaGetUnset("gt");
    var d1 := LemmaComparingProgram(Set(Fresh, "x", 11.0), fuel, dz);
    var d2 := LemmaComparingProgram(Set(d1, "x", 12.0), fuel, dz);
    var d3 := LemmaComparingProgram(Set(d2, "x", 13.0), fuel, dz);
  }

  // ------------------------------------------------ the compiled program

  /** "Set z to 3. Set x to y times z." */
  const ComputeX: Stmt := Block([Assign("z", Const(3.0)), Assign("x", Bin(Multiplication, Var("y"), Var("z")))])

  /** "Set z to 3." names z alone. */
  lemma LemmaSetZNames()
    ensures Variables.FindAllVariables(S(Assign("z", Const(3.0)))) == {"z"}
  {
    Variables.LemmaAssignmentTargetCounts("z", Const(3.0));
    Variables.LemmaLeafVariables("y", 3.0);
  }

  /** "Set x to y times z." names x, y and z. */
  lemma LemmaSetXNames()
    ensures Variables.FindAllVariables(S(Assign("x", Bin(Multiplication, Var("y"), Var("z"))))) == {"x", "y", "z"}
  {
    LemmaAssignTwoNames("x", Multiplication, "y", "z");
  }

  /** y times z names y and z. */
  lemma LemmaProductNames()
    ensures Variables.FindAllVariables(E(Bin(Multiplication, Var("y"), Var("z")))) == {"y", "z"}
  {
    LemmaTwoNames(Multiplication, "y", "z");
  }

  /** An operator applied to two variables names those two. */
  lemma LemmaTwoNames(op: BinOp, a: string, b: string)
    ensures Variables.FindAllVariables(E(Bin(op, Var(a), Var(b)))) == {a, b}
  {
    Variables.LemmaExprVariables(Bin(op, Var(a), Var(b)));
  }

  /** Assigning an operator applied to two variables names the target and those two. */
  lemma LemmaAssignTwoNames(x: string, op: BinOp, a: string, b: string)
    ensures Variables.FindAllVariables(S(Assign(x, Bin(op, Var(a), Var(b))))) == {x, a, b}
  {
    Variables.LemmaAssignmentTargetCounts(x, Bin(op, Var(a), Var(b)));
    LemmaTwoNames(op, a, b);
  }

  /** The compiled class gets fields and accessors for exactly x, y and z. */
  lemma LemmaComputeXVariables()
    ensures Variables.FindAllVariables(S(ComputeX)) == {"x", "y", "z"}
  {
    var a := Assign("z", Const(3.0));
    var b := Assign("x", Bin(Multiplication, Var("y"), Var("z")));
    assert ComputeX == Block([a, b]);
    assert seq(2, i requires 0 <= i < 2 => S([a, b][i])) == [S(a), S(b)];
    Variables.LemmaBlockUnion([a, b]);
    Variables.LemmaUnionOfTwo(S(a), S(b));
    Variables.LemmaStmtVariables(Block([a, b]));
    LemmaSetZNames();
    LemmaSetXNames();
  }

  /**
   * The class generated for "Set z to 3. Set x to y times z.", whose variables are exactly x, y
   * and z (`LemmaComputeXVariables`), has one field block and one getter/setter block for each
   * of them, in any iteration order, and none for any other name.
   */
  lemma LemmaComputeXMembers(order: seq<string>, v: string)
    requires Compiler.Enumerates(order, {"x", "y", "z"})
    ensures multiset(Compiler.MemberBlocks(order))[Compiler.Field(v)] == if v in {"x", "y", "z"} then 1 else 0
    ensures multiset(Compiler.MemberBlocks(order))[Compiler.Accessors(v)] == if v in {"x", "y", "z"} then 1 else 0
  {
    Compiler.LemmaMembersOf(order, {"x", "y", "z"}, v);
  }

  /** The value y = 127 set through the context. */
  lemma LemmaY127()
    ensures Read(Set(Fresh, "y", 127.0).vars, "y") == 127.0
  {
    assert Get(Set(Fresh, "y", 127.0), "y") == 127.0;
  }

  /** The compiled program, run with y = 127 set through the context, leaves x = 381. */
  lemma LemmaComputeXCompiled(fuel: nat, dz: real -> real, pow: (real, real) -> real)
    ensures var o := JavaMeaning.Exec(ComputeX, Set(Fresh, "y", 127.0).vars, fuel, dz, pow);
      o.Done? && Read(o.vars, "x") == 381.0
  {
    var v0 := Set(Fresh, "y", 127.0).vars;
    LemmaY127();
    var a := Assign("z", Const(3.0));
    var b := Assign("x", Bin(Multiplication, Var("y"), Var("z")));
    assert ComputeX == Block([a, b]);
    var v1 := LemmaJavaSetZ(v0, fuel, dz, pow);
    var v2 := LemmaJavaSetX(v1, fuel, dz, pow);
    assert [a, b][1..] == [b];
    assert JavaMeaning.ExecAll([b], v1, fuel, dz, pow) == JavaMeaning.ExecAll([], v2, fuel, dz, pow);
    assert JavaMeaning.ExecAll([a, b], v0, fuel, dz, pow) == JavaMeaning.ExecAll([b], v1, fuel, dz, pow);
  }

  /** The compiled "Set z to 3." stores 3 in z and leaves y alone. */
  lemma LemmaJavaSetZ(vars: Vars, fuel: nat, dz: real -> real, pow: (real, real) -> real) returns (next: Vars)
    ensures JavaMeaning.Exec(Assign("z", Const(3.0)), vars, fuel, dz, pow) == JavaMeaning.Done(next)
    ensures Read(next, "z") == 3.0 && Read(next, "y") == Read(vars, "y")
  {
    next := OrderedMap.Put(vars, "z", 3.0);
  }

  /** The compiled "Set x to y times z." with y = 127 and z = 3 stores 381 in x. */
  lemma LemmaJavaSetX(vars: Vars, fuel: nat, dz: real -> real, pow: (real, real) -> real) returns (next: Vars)
    requires Read(vars, "y") == 127.0 && Read(vars, "z") == 3.0
    ensures JavaMeaning.Exec(Assign("x", Bin(Multiplication, Var("y"), Var("z"))), vars, fuel, dz, pow) == JavaMeaning.Done(next)
    ensures Read(next, "x") == 381.0
  {
    LemmaJavaBinOfVars(Multiplication, "y", "z", vars, dz, pow);
    assert Arith(Multiplication, 127.0, 3.0, dz) == 381.0;
    next := OrderedMap.Put(vars, "x", 381.0);
  }

  /** The interpreter agrees: running the same program from y = 127 also leaves x = 381. */
  lemma LemmaComputeXInterpreted(fuel: nat, dz: real -> real)
    ensures var o := Run(ComputeX, Set(Fresh, "y", 127.0), fuel, dz); o.Normal? && Get(o.ctx, "x") == 381.0
  {
    var c0 := Set(Fresh, "y", 127.0);
    LemmaY127();
    var a := Assign("z", Const(3.0));
    var product := Bin(Multiplication, Var("y"), Var("z"));
    var b := Assign("x", product);
    assert ComputeX == Block([a, b]);
    var started := Trace(c0, S(ComputeX), Started, None);
    LemmaRunIsDoRun(ComputeX, c0, fuel, dz);
    LemmaRunAssign("z", Const(3.0), started, fuel, dz);
    var o1 := Run(a, started, fuel, dz);
    assert Get(o1.ctx, "z") == 3.0 && Get(o1.ctx, "y") == 127.0;
    assert [a, b][1..] == [b];
    assert RunAll([a, b], started, fuel, dz) == RunAll([b], o1.ctx, fuel, dz);
    LemmaRunAllSingle(b, o1.ctx, fuel, dz);
    LemmaProduct(o1.ctx.vars, dz);
    LemmaRunAssign("x", product, o1.ctx, fuel, dz);
  }

  /** y times z with y = 127 and z = 3 is 381. */
  lemma LemmaProduct(vars: Vars, dz: real -> real)
    requires Read(vars, "y") == 127.0 && Read(vars, "z") == 3.0
    ensures Denote(Bin(Multiplication, Var("y"), Var("z")), vars, dz) == Some(381.0)
  {
    LemmaBinOfVars(Multiplication, "y", "z", vars, dz);
    assert Arith(Multiplication, 127.0, 3.0, dz) == 381.0;
  }

  /** An arithmetic operator applied to two variables means the operator on their values. */
  lemma LemmaBinOfVars(op: BinOp, x: string, y: string, vars: Vars, dz: real -> real)
    requires op != Exponentiation
    ensures Denote(Bin(op, Var(x), Var(y)), vars, dz) == Some(Arith(op, Read(vars, x), Read(vars, y), dz))
  {
  }

  /** The compiled form of the same expression computes the same value. */
  lemma LemmaJavaBinOfVars(op: BinOp, x: string, y: string, vars: Vars, dz: real -> real, pow: (real, real) -> real)
    requires op != Exponentiation
    ensures JavaMeaning.JavaValue(Bin(op, Var(x), Var(y)), vars, dz, pow) == Arith(op, Read(vars, x), Read(vars, y), dz)
  {
  }

}
