/**
 * What the Java text the compiler emits does when it runs: fields of the execution context,
 * assignments, `if`/`else`, `while (true)` left by `break`, and `Math.pow` for exponentiation.
 * `Math.pow` is the parameter `pow`; division by zero is the same `dz` the interpreter uses,
 * since both compute with doubles. Java evaluation has no tracer, and an exponent never makes it
 * loop.
 *
 * The interpreter and the Java code agree whenever every exponent is a whole number from 1 to
 * `Integer.MAX_VALUE`; an exponent of 0 is where they part.
 */
module JavaMeaning {
  import opened Wrappers
  import opened Ast
  import opened Context
  import opened Interpreter
  import OrderedMap

  /** The value of a compiled expression. */
  function JavaValue(e: Expr, vars: Vars, dz: real -> real, pow: (real, real) -> real): real
  {
    match e
    case Const(v) => v
    case Var(x) => Read(vars, x)
    case Bin(op, l, r) =>
      var a := JavaValue(l, vars, dz, pow);
      var b := JavaValue(r, vars, dz, pow);
      if op == Exponentiation then pow(a, b) else Arith(op, a, b, dz)
  }

  /** A whole number from 1 to `Integer.MAX_VALUE`. */
  predicate Whole(b: real)
  {
    1.0 <= b <= Int32Max as real && b == b.Floor as real
  }

  /** `Math.pow` on whole exponents from 0 to `Integer.MAX_VALUE` is repeated multiplication. */
  ghost predicate MathPow(pow: (real, real) -> real)
  {
    forall a: real, b: real :: 0.0 <= b <= Int32Max as real && b == b.Floor as real ==> pow(a, b) == Power(a, b.Floor)
  }

  /** Every exponent in `e` evaluates, in `vars`, to a whole number from 1 to `Integer.MAX_VALUE`. */
  ghost predicate WholeExponents(e: Expr, vars: Vars, dz: real -> real)
  {
    match e
    case Const(_) => true
    case Var(_) => true
    case Bin(op, l, r) =>
      WholeExponents(l, vars, dz) && WholeExponents(r, vars, dz) &&
      (op == Exponentiation ==> Denote(r, vars, dz).Some? && Whole(Denote(r, vars, dz).value))
  }

  /** Every exponent in `e` is a constant whole number, as "squared" and "to the power of 3" give. */
  predicate ConstExponents(e: Expr)
  {
    match e
    case Const(_) => true
    case Var(_) => true
    case Bin(op, l, r) =>
      ConstExponents(l) && ConstExponents(r) && (op == Exponentiation ==> r.Const? && Whole(r.value))
  }

  /** Every expression in `s` has constant whole exponents. */
  predicate StmtConstExponents(s: Stmt)
  {
    match s
    case Assign(_, e) => ConstExponents(e)
    case Block(ss) => forall i :: 0 <= i < |ss| ==> StmtConstExponents(ss[i])
    case Cond(_, l, r, t, f) => ConstExponents(l) && ConstExponents(r) && StmtConstExponents(t) && StmtConstExponents(f)
    case Loop(b) => StmtConstExponents(b)
    case Exit => true
  }

  // ------------------------------------------------ expressions

  /** With whole exponents the interpreter's value is the Java value. */
  lemma {:induction false} LemmaJavaAgrees(e: Expr, vars: Vars, dz: real -> real, pow: (real, real) -> real)
    requires MathPow(pow) && WholeExponents(e, vars, dz)
    ensures Denote(e, vars, dz) == Some(JavaValue(e, vars, dz, pow))
  {
    match e
    case Const(_) =>
    case Var(_) =>
    case Bin(op, l, r) =>
      LemmaJavaAgrees(l, vars, dz, pow);
      LemmaJavaAgrees(r, vars, dz, pow);
      if op == Exponentiation {
        var a, b := JavaValue(l, vars, dz, pow), JavaValue(r, vars, dz, pow);
        LemmaPowValueCases(a, b);
        assert pow(a, b) == Power(a, b.Floor);
        assert Power(a, 1) == a * Power(a, 0);
      }
  }

  /** Constant whole exponents are whole in every variable state. */
  lemma {:induction false} LemmaConstExponentsWhole(e: Expr, vars: Vars, dz: real -> real)
    requires ConstExponents(e)
    ensures WholeExponents(e, vars, dz)
  {
    match e
    case Const(_) =>
    case Var(_) =>
    case Bin(_, l, r) =>
      LemmaConstExponentsWhole(l, vars, dz);
      LemmaConstExponentsWhole(r, vars, dz);
  }

  /**
   * An exponent of 0: the interpreter's loop never multiplies and yields the base, while
   * `Math.pow` yields 1.
   */
  lemma LemmaZeroExponent(a: real, vars: Vars, dz: real -> real, pow: (real, real) -> real)
    requires MathPow(pow)
    ensures Denote(Bin(Exponentiation, Const(a), Const(0.0)), vars, dz) == Some(a)
    ensures JavaValue(Bin(Exponentiation, Const(a), Const(0.0)), vars, dz, pow) == 1.0
    ensures a != 1.0 ==>
      Denote(Bin(Exponentiation, Const(a), Const(0.0)), vars, dz) !=
      Some(JavaValue(Bin(Exponentiation, Const(a), Const(0.0)), vars, dz, pow))
  {
    assert pow(a, 0.0) == Power(a, 0);
  }

  // ------------------------------------------------ statements

  /** How a compiled statement ends: normally, by `break`, or not within the fuel. */
  datatype JavaOutcome = Done(vars: Vars) | Broke(vars: Vars) | Stuck

  /** A compiled statement run with `fuel` rounds of `while (true)` available, as the interpreter counts them. */
  function Exec(s: Stmt, vars: Vars, fuel: nat, dz: real -> real, pow: (real, real) -> real): JavaOutcome
    decreases fuel, StmtSize(s), 1
  {
    match s
    case Assign(x, e) => Done(OrderedMap.Put(vars, x, JavaValue(e, vars, dz, pow)))
    case Block(ss) => ExecAll(ss, vars, fuel, dz, pow)
    case Cond(op, l, r, t, f) =>
      if Compare(op, JavaValue(l, vars, dz, pow), JavaValue(r, vars, dz, pow))
      then Exec(t, vars, fuel, dz, pow) else Exec(f, vars, fuel, dz, pow)
    case Loop(b) => ExecLoop(b, vars, fuel, dz, pow)
    case Exit => Broke(vars)
  }

  function ExecAll(ss: seq<Stmt>, vars: Vars, fuel: nat, dz: real -> real, pow: (real, real) -> real): JavaOutcome
    decreases fuel, StmtsSize(ss), 2
  {
    if ss == [] then Done(vars)
    else
      var first := Exec(ss[0], vars, fuel, dz, pow);
      if first.Done? then ExecAll(ss[1..], first.vars, fuel, dz, pow) else first
  }

  function ExecLoop(b: Stmt, vars: Vars, fuel: nat, dz: real -> real, pow: (real, real) -> real): JavaOutcome
    decreases fuel, StmtSize(b), 2
  {
    if fuel == 0 then Stuck
    else
      match Exec(b, vars, fuel - 1, dz, pow)
      case Done(v) => ExecLoop(b, v, fuel - 1, dz, pow)
      case Broke(v) => Done(v)
      case Stuck => Stuck
  }

  /** An interpreter outcome with the context reduced to its variables. */
  function Erased(o: Outcome): JavaOutcome
  {
    match o
    case Normal(c) => Done(c.vars)
    case Exited(c) => Broke(c.vars)
    case OutOfFuel => Stuck
  }

  /**
   * Interpreter and compiled code agree: with the default tracer and constant whole exponents, a
   * statement ends the same way in both and leaves the same variables.
   */
  lemma {:induction false} LemmaExecAgrees(s: Stmt, ctx: Context, fuel: nat, dz: real -> real, pow: (real, real) -> real)
    requires ctx.tracer.Silent? && MathPow(pow) && StmtConstExponents(s)
    ensures Erased(DoRun(s, ctx, fuel, dz)) == Exec(s, ctx.vars, fuel, dz, pow)
    decreases fuel, StmtSize(s), 1
  {
    match s
    case Assign(x, e) =>
      LemmaEvaluateMeaning(e, ctx, dz);
      LemmaConstExponentsWhole(e, ctx.vars, dz);
      LemmaJavaAgrees(e, ctx.vars, dz, pow);
    case Block(ss) => LemmaExecAllAgrees(ss, ctx, fuel, dz, pow);
    case Cond(op, l, r, t, f) =>
      LemmaDoEvaluateMeaning(l, ctx, dz);
      LemmaConstExponentsWhole(l, ctx.vars, dz);
      LemmaJavaAgrees(l, ctx.vars, dz, pow);
      var left := DoEvaluate(l, ctx, dz);
      LemmaDoEvaluateMeaning(r, left.ctx, dz);
      LemmaConstExponentsWhole(r, ctx.vars, dz);
      LemmaJavaAgrees(r, ctx.vars, dz, pow);
      var right := DoEvaluate(r, left.ctx, dz);
      LemmaExecAgrees(t, right.ctx, fuel, dz, pow);
      LemmaExecAgrees(f, right.ctx, fuel, dz, pow);
    case Loop(b) => LemmaLoopAgrees(b, ctx, fuel, dz, pow);
    case Exit =>
  }

  /** With the default tracer, `run` ends as `doRun` does. */
  lemma LemmaRunAgrees(s: Stmt, ctx: Context, fuel: nat, dz: real -> real, pow: (real, real) -> real)
    requires ctx.tracer.Silent? && MathPow(pow) && StmtConstExponents(s)
    ensures Erased(Run(s, ctx, fuel, dz)) == Exec(s, ctx.vars, fuel, dz, pow)
    decreases fuel, StmtSize(s), 2
  {
    LemmaExecAgrees(s, ctx, fuel, dz, pow);
  }

  lemma {:induction false} LemmaExecAllAgrees(ss: seq<Stmt>, ctx: Context, fuel: nat, dz: real -> real, pow: (real, real) -> real)
    requires ctx.tracer.Silent? && MathPow(pow)
    requires forall i :: 0 <= i < |ss| ==> StmtConstExponents(ss[i])
    ensures Erased(RunAll(ss, ctx, fuel, dz)) == ExecAll(ss, ctx.vars, fuel, dz, pow)
    decreases fuel, StmtsSize(ss), 3
  {
    if ss != [] {
      assert StmtsSize(ss) == StmtSize(ss[0]) + StmtsSize(ss[1..]);
      LemmaRunAgrees(ss[0], ctx, fuel, dz, pow);
      var first := Run(ss[0], ctx, fuel, dz);
      if first.Normal? {
        LemmaExecAllAgrees(ss[1..], first.ctx, fuel, dz, pow);
      }
    }
  }

  lemma {:induction false} LemmaLoopAgrees(b: Stmt, ctx: Context, fuel: nat, dz: real -> real, pow: (real, real) -> real)
    requires ctx.tracer.Silent? && MathPow(pow) && StmtConstExponents(b)
    ensures Erased(Repeat(b, ctx, fuel, dz)) == ExecLoop(b, ctx.vars, fuel, dz, pow)
    decreases fuel, StmtSize(b), 3
  {
    if fuel > 0 {
      LemmaRunAgrees(b, ctx, fuel - 1, dz, pow);
      var round := Run(b, ctx, fuel - 1, dz);
      if round.Normal? {
        LemmaLoopAgrees(b, round.ctx, fuel - 1, dz, pow);
      }
    }
  }
}
