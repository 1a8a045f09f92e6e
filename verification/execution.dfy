/**
 * Properties of running statements: what an assignment changes, how a block composes, which
 * branch a conditional takes, and where the loop-exit signal is caught.
 */
module Execution {
  import opened Wrappers
  import opened Ast
  import opened Context
  import opened Interpreter

  /** `run` brackets `doRun`: the same ending, the same variables, and STARTED/COMPLETED around. */
  lemma LemmaRunIsDoRun(s: Stmt, ctx: Context, fuel: nat, dz: real -> real)
    ensures Run(s, ctx, fuel, dz).Normal? <==> DoRun(s, Trace(ctx, S(s), Started, None), fuel, dz).Normal?
    ensures Run(s, ctx, fuel, dz).Exited? <==> DoRun(s, Trace(ctx, S(s), Started, None), fuel, dz).Exited?
    ensures !Run(s, ctx, fuel, dz).OutOfFuel? ==>
      Run(s, ctx, fuel, dz).ctx.vars == DoRun(s, Trace(ctx, S(s), Started, None), fuel, dz).ctx.vars
  {
  }

  /**
   * With a recording tracer, a statement that finishes (normally or by the exit signal) logs
   * STARTED for itself first and COMPLETED with no result last.
   */
  lemma LemmaRunBrackets(s: Stmt, ctx: Context, fuel: nat, dz: real -> real)
    requires ctx.tracer.Recording?
    requires !Run(s, ctx, fuel, dz).OutOfFuel?
    ensures |Run(s, ctx, fuel, dz).ctx.log| >= |ctx.log| + 2
    ensures Run(s, ctx, fuel, dz).ctx.log[..|ctx.log| + 1] == ctx.log + [Event(S(s), Started, None)]
    ensures Run(s, ctx, fuel, dz).ctx.log[|Run(s, ctx, fuel, dz).ctx.log| - 1] == Event(S(s), Completed, None)
  {
    var started := Trace(ctx, S(s), Started, None);
    var d := DoRun(s, started, fuel, dz);
    assert started.log <= d.ctx.log;
    assert d.ctx.log[..|ctx.log| + 1] == started.log;
  }

  /**
   * An assignment writes the value its right-hand side has before the write, to the target
   * only; it never finishes when the right-hand side does not.
   */
  lemma LemmaAssign(x: string, e: Expr, ctx: Context, fuel: nat, dz: real -> real)
    ensures Denote(e, ctx.vars, dz).None? ==> DoRun(Assign(x, e), ctx, fuel, dz).OutOfFuel?
    ensures Denote(e, ctx.vars, dz).Some? ==>
      DoRun(Assign(x, e), ctx, fuel, dz).Normal? &&
      Get(DoRun(Assign(x, e), ctx, fuel, dz).ctx, x) == Denote(e, ctx.vars, dz).value &&
      forall y :: y != x ==> Get(DoRun(Assign(x, e), ctx, fuel, dz).ctx, y) == Get(ctx, y)
  {
    LemmaEvaluateMeaning(e, ctx, dz);
  }

  /** Running `ss1 + ss2` runs `ss1`, and then `ss2` from where `ss1` left off if it ended normally. */
  lemma {:induction false} LemmaRunAllAppend(ss1: seq<Stmt>, ss2: seq<Stmt>, ctx: Context, fuel: nat, dz: real -> real)
    ensures RunAll(ss1 + ss2, ctx, fuel, dz) ==
      (var o := RunAll(ss1, ctx, fuel, dz); if o.Normal? then RunAll(ss2, o.ctx, fuel, dz) else o)
    decreases |ss1|
  {
    if ss1 == [] {
      assert ss1 + ss2 == ss2;
    } else {
      assert (ss1 + ss2)[0] == ss1[0];
      assert (ss1 + ss2)[1..] == ss1[1..] + ss2;
      var first := Run(ss1[0], ctx, fuel, dz);
      if first.Normal? {
        LemmaRunAllAppend(ss1[1..], ss2, first.ctx, fuel, dz);
      }
    }
  }

  /** A block of one statement behaves as running that statement. */
  lemma LemmaRunAllSingle(s: Stmt, ctx: Context, fuel: nat, dz: real -> real)
    ensures RunAll([s], ctx, fuel, dz) == Run(s, ctx, fuel, dz)
  {
    assert [s][1..] == [];
  }

  /** The context a conditional hands to its branch: both operands evaluated, untraced at the top. */
  function AfterOperands(lhs: Expr, rhs: Expr, ctx: Context, dz: real -> real): (r: Option<Context>)
    ensures r.Some? ==> r.value.vars == ctx.vars && r.value.tracer == ctx.tracer && ctx.log <= r.value.log
  {
    var left := DoEvaluate(lhs, ctx, dz);
    if left.Diverges? then None
    else
      var right := DoEvaluate(rhs, left.ctx, dz);
      if right.Diverges? then None else Some(right.ctx)
  }

  /**
   * A conditional compares the meanings of its operands and runs exactly one branch: `ifTrue`
   * when the comparison holds and `ifFalse` otherwise.
   */
  lemma LemmaCondOneBranch(op: CmpOp, lhs: Expr, rhs: Expr, t: Stmt, f: Stmt, ctx: Context, fuel: nat, dz: real -> real)
    requires Denote(lhs, ctx.vars, dz).Some? && Denote(rhs, ctx.vars, dz).Some?
    ensures AfterOperands(lhs, rhs, ctx, dz).Some?
    ensures DoRun(Cond(op, lhs, rhs, t, f), ctx, fuel, dz) ==
      DoRun(if Compare(op, Denote(lhs, ctx.vars, dz).value, Denote(rhs, ctx.vars, dz).value) then t else f,
            AfterOperands(lhs, rhs, ctx, dz).value, fuel, dz)
  {
    LemmaDoEvaluateMeaning(lhs, ctx, dz);
    var left := DoEvaluate(lhs, ctx, dz);
    LemmaDoEvaluateMeaning(rhs, left.ctx, dz);
  }

  /** A condition that does not hold, with the empty else branch, leaves every variable alone. */
  lemma LemmaCondEmptyElse(op: CmpOp, lhs: Expr, rhs: Expr, t: Stmt, ctx: Context, fuel: nat, dz: real -> real)
    requires Denote(lhs, ctx.vars, dz).Some? && Denote(rhs, ctx.vars, dz).Some?
    requires !Compare(op, Denote(lhs, ctx.vars, dz).value, Denote(rhs, ctx.vars, dz).value)
    ensures DoRun(Cond(op, lhs, rhs, t, EmptyBlock), ctx, fuel, dz).Normal?
    ensures DoRun(Cond(op, lhs, rhs, t, EmptyBlock), ctx, fuel, dz).ctx.vars == ctx.vars
  {
    LemmaCondOneBranch(op, lhs, rhs, t, EmptyBlock, ctx, fuel, dz);
  }

  /**
   * The operands of a conditional are evaluated with `doEvaluate`: when they are constants or
   * variables nothing at all is logged for them, and the conditional is its branch run directly.
   */
  lemma LemmaCondOperandsUntraced(op: CmpOp, lhs: Expr, rhs: Expr, t: Stmt, f: Stmt, ctx: Context, fuel: nat, dz: real -> real)
    requires !lhs.Bin? && !rhs.Bin?
    ensures AfterOperands(lhs, rhs, ctx, dz) == Some(ctx)
    ensures DoRun(Cond(op, lhs, rhs, t, f), ctx, fuel, dz) ==
      DoRun(if Compare(op, Denote(lhs, ctx.vars, dz).value, Denote(rhs, ctx.vars, dz).value) then t else f,
            ctx, fuel, dz)
  {
  }

  /**
   * Whatever their shape, the operands of a conditional log no event of their own: what the
   * left operand's `doEvaluate` logs is about expressions strictly inside it, and what the right
   * operand's logs after that is about expressions strictly inside the right operand.
   */
  lemma LemmaOperandEvents(lhs: Expr, rhs: Expr, ctx: Context, dz: real -> real)
    ensures AfterOperands(lhs, rhs, ctx, dz).Some? ==>
      DoEvaluate(lhs, ctx, dz).Value? &&
      EventsBelow(DoEvaluate(lhs, ctx, dz).ctx.log, |ctx.log|, lhs) &&
      DoEvaluate(lhs, ctx, dz).ctx.log <= AfterOperands(lhs, rhs, ctx, dz).value.log &&
      EventsBelow(AfterOperands(lhs, rhs, ctx, dz).value.log, |DoEvaluate(lhs, ctx, dz).ctx.log|, rhs)
  {
    var left := DoEvaluate(lhs, ctx, dz);
    LemmaDoEvaluateEvents(lhs, ctx, dz);
    if left.Value? {
      LemmaDoEvaluateEvents(rhs, left.ctx, dz);
    }
  }

  /** Running `exit loop` raises the exit signal and changes nothing else. */
  lemma LemmaExitSignals(ctx: Context, fuel: nat, dz: real -> real)
    ensures DoRun(Exit, ctx, fuel, dz) == Exited(ctx)
    ensures Run(Exit, ctx, fuel, dz).Exited? && Run(Exit, ctx, fuel, dz).ctx.vars == ctx.vars
  {
  }

  /** A loop catches the exit signal of its body: running a loop never ends by the signal. */
  lemma {:induction false} LemmaRepeatNeverExits(body: Stmt, ctx: Context, fuel: nat, dz: real -> real)
    ensures !Repeat(body, ctx, fuel, dz).Exited?
    decreases fuel
  {
    if fuel > 0 {
      var round := Run(body, ctx, fuel - 1, dz);
      if round.Normal? {
        LemmaRepeatNeverExits(body, round.ctx, fuel - 1, dz);
      }
    }
  }

  lemma LemmaLoopNeverExits(body: Stmt, ctx: Context, fuel: nat, dz: real -> real)
    ensures !DoRun(Loop(body), ctx, fuel, dz).Exited?
    ensures !Run(Loop(body), ctx, fuel, dz).Exited?
  {
    LemmaRepeatNeverExits(body, ctx, fuel, dz);
    LemmaRepeatNeverExits(body, Trace(ctx, S(Loop(body)), Started, None), fuel, dz);
  }

  /** An exit that is not inside any loop of the statement. */
  predicate HasFreeExit(s: Stmt)
  {
    match s
    case Assign(_, _) => false
    case Block(ss) => exists i :: 0 <= i < |ss| && HasFreeExit(ss[i])
    case Cond(_, _, _, t, f) => HasFreeExit(t) || HasFreeExit(f)
    case Loop(_) => false
    case Exit => true
  }

  /**
   * The exit signal is caught only by the nearest enclosing loop: a statement whose every exit
   * sits inside one of its loops never ends by the signal.
   */
  lemma {:induction false} LemmaNoFreeExit(s: Stmt, ctx: Context, fuel: nat, dz: real -> real)
    requires !HasFreeExit(s)
    ensures !DoRun(s, ctx, fuel, dz).Exited?
    ensures !Run(s, ctx, fuel, dz).Exited?
    decreases StmtSize(s), 2
  {
    LemmaNoFreeExitDo(s, ctx, fuel, dz);
    LemmaNoFreeExitDo(s, Trace(ctx, S(s), Started, None), fuel, dz);
  }

  lemma {:induction false} LemmaNoFreeExitDo(s: Stmt, ctx: Context, fuel: nat, dz: real -> real)
    requires !HasFreeExit(s)
    ensures !DoRun(s, ctx, fuel, dz).Exited?
    decreases StmtSize(s), 1
  {
    match s
    case Assign(_, _) =>
    case Block(ss) => LemmaNoFreeExitAll(ss, ctx, fuel, dz);
    case Cond(op, lhs, rhs, t, f) =>
      var left := DoEvaluate(lhs, ctx, dz);
      if left.Value? {
        var right := DoEvaluate(rhs, left.ctx, dz);
        if right.Value? {
          LemmaNoFreeExitDo(t, right.ctx, fuel, dz);
          LemmaNoFreeExitDo(f, right.ctx, fuel, dz);
        }
      }
    case Loop(body) => LemmaLoopNeverExits(body, ctx, fuel, dz);
    case Exit =>
  }

  lemma {:induction false} LemmaNoFreeExitAll(ss: seq<Stmt>, ctx: Context, fuel: nat, dz: real -> real)
    requires forall i :: 0 <= i < |ss| ==> !HasFreeExit(ss[i])
    ensures !RunAll(ss, ctx, fuel, dz).Exited?
    decreases StmtsSize(ss), 3
  {
    if ss != [] {
      LemmaNoFreeExit(ss[0], ctx, fuel, dz);
      var first := Run(ss[0], ctx, fuel, dz);
      if first.Normal? {
        LemmaNoFreeExitAll(ss[1..], first.ctx, fuel, dz);
      }
    }
  }

  /**
   * More fuel never changes a finished run: fuel only bounds how many loop rounds are tried.
   */
  lemma {:induction false} LemmaRunFuel(s: Stmt, ctx: Context, fuel: nat, more: nat, dz: real -> real)
    requires fuel <= more && !Run(s, ctx, fuel, dz).OutOfFuel?
    ensures Run(s, ctx, more, dz) == Run(s, ctx, fuel, dz)
    decreases fuel, StmtSize(s), 2
  {
    LemmaDoRunFuel(s, Trace(ctx, S(s), Started, None), fuel, more, dz);
  }

  lemma {:induction false} LemmaDoRunFuel(s: Stmt, ctx: Context, fuel: nat, more: nat, dz: real -> real)
    requires fuel <= more && !DoRun(s, ctx, fuel, dz).OutOfFuel?
    ensures DoRun(s, ctx, more, dz) == DoRun(s, ctx, fuel, dz)
    decreases fuel, StmtSize(s), 1
  {
    match s
    case Assign(_, _) =>
    case Block(ss) => LemmaRunAllFuel(ss, ctx, fuel, more, dz);
    case Cond(op, lhs, rhs, t, f) =>
      var left := DoEvaluate(lhs, ctx, dz);
      var right := DoEvaluate(rhs, left.ctx, dz);
      if Compare(op, left.v, right.v) {
        LemmaDoRunFuel(t, right.ctx, fuel, more, dz);
      } else {
        LemmaDoRunFuel(f, right.ctx, fuel, more, dz);
      }
    case Loop(body) => LemmaRepeatFuel(body, ctx, fuel, more, dz);
    case Exit =>
  }

  lemma {:induction false} LemmaRunAllFuel(ss: seq<Stmt>, ctx: Context, fuel: nat, more: nat, dz: real -> real)
    requires fuel <= more && !RunAll(ss, ctx, fuel, dz).OutOfFuel?
    ensures RunAll(ss, ctx, more, dz) == RunAll(ss, ctx, fuel, dz)
    decreases fuel, StmtsSize(ss), 3
  {
    if ss != [] {
      var first := Run(ss[0], ctx, fuel, dz);
      LemmaRunFuel(ss[0], ctx, fuel, more, dz);
      if first.Normal? {
        LemmaRunAllFuel(ss[1..], first.ctx, fuel, more, dz);
      }
    }
  }

  lemma {:induction false} LemmaRepeatFuel(body: Stmt, ctx: Context, fuel: nat, more: nat, dz: real -> real)
    requires fuel <= more && !Repeat(body, ctx, fuel, dz).OutOfFuel?
    ensures Repeat(body, ctx, more, dz) == Repeat(body, ctx, fuel, dz)
    decreases fuel, StmtSize(body), 3
  {
    var round := Run(body, ctx, fuel - 1, dz);
    LemmaRunFuel(body, ctx, fuel - 1, more - 1, dz);
    if round.Normal? {
      LemmaRepeatFuel(body, round.ctx, fuel - 1, more - 1, dz);
    }
  }
}
