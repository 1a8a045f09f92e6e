/**
 * The Wordy interpreter: `ExpressionNode.evaluate`/`doEvaluate` and the statements' `run`.
 *
 * Numbers are reals; `dz(a)` stands for the IEEE value of `a / 0`. Evaluation cannot fail, but
 * the exponent loop of `BinaryExpressionNode` counts with a Java `int`, so an exponent above
 * `Integer.MAX_VALUE` makes the counter wrap around and the loop never ends: `Diverges`.
 */
module Interpreter {
  import opened Wrappers
  import opened Ast
  import opened Context

  /** `Integer.MAX_VALUE`, the largest value of the exponent loop's counter. */
  const Int32Max: int := 0x7FFF_FFFF

  /** The result of evaluating an expression: its value and the context afterwards. */
  datatype Eval = Value(v: real, ctx: Context) | Diverges

  /** The four arithmetic operators on doubles. */
  function Arith(op: BinOp, a: real, b: real, dz: real -> real): real
    requires op != Exponentiation
  {
    match op
    case Addition => a + b
    case Subtraction => a - b
    case Multiplication => a * b
    case Division => if b == 0.0 then dz(a) else a / b
  }

  /** Double multiplication. */
  function Times(a: real, b: real): real
  {
    a * b
  }

  /** `evaluate`: STARTED, then `doEvaluate`, then COMPLETED carrying the result. */
  function Evaluate(e: Expr, ctx: Context, dz: real -> real): (r: Eval)
    ensures r.Value? ==> r.ctx.vars == ctx.vars && r.ctx.tracer == ctx.tracer && ctx.log <= r.ctx.log
    ensures r.Value? && ctx.tracer.Silent? ==> r.ctx.log == ctx.log
    decreases ExprSize(e), 2, 0
  {
    match DoEvaluate(e, Trace(ctx, E(e), Started, None), dz)
    case Diverges => Diverges
    case Value(v, c) => Value(v, Trace(c, E(e), Completed, Some(v)))
  }

  /** `doEvaluate` of each expression class. */
  function DoEvaluate(e: Expr, ctx: Context, dz: real -> real): (r: Eval)
    ensures r.Value? ==> r.ctx.vars == ctx.vars && r.ctx.tracer == ctx.tracer && ctx.log <= r.ctx.log
    ensures r.Value? && ctx.tracer.Silent? ==> r.ctx.log == ctx.log
    decreases ExprSize(e), 1, 0
  {
    match e
    case Const(v) => Value(v, ctx)
    case Var(x) => Value(Get(ctx, x), ctx)
    case Bin(op, lhs, rhs) =>
      match Evaluate(lhs, ctx, dz)
      case Diverges => Diverges
      case Value(a, c1) =>
        if op == Exponentiation then PowLoop(lhs, rhs, a, 1, c1, dz)
        else
          match Evaluate(rhs, c1, dz)
          case Diverges => Diverges
          case Value(b, c2) => Value(Arith(op, a, b, dz), c2)
  }

  /**
   * `for (int i = 1; i < rhs.evaluate(context); i++) result = result * lhs.evaluate(context);`
   * Both operands are evaluated again on every round. Past `Integer.MAX_VALUE` the counter
   * wraps to `Integer.MIN_VALUE` and the test never fails again.
   */
  function PowLoop(lhs: Expr, rhs: Expr, result: real, i: int, ctx: Context, dz: real -> real): (r: Eval)
    requires 1 <= i <= Int32Max
    ensures r.Value? ==> r.ctx.vars == ctx.vars && r.ctx.tracer == ctx.tracer && ctx.log <= r.ctx.log
    ensures r.Value? && ctx.tracer.Silent? ==> r.ctx.log == ctx.log
    decreases 1 + ExprSize(lhs) + ExprSize(rhs), 0, Int32Max - i
  {
    var bound := Evaluate(rhs, ctx, dz);
    if bound.Diverges? then Diverges
    else if !((i as real) < bound.v) then Value(result, bound.ctx)
    else
      var factor := Evaluate(lhs, bound.ctx, dz);
      if factor.Diverges? || i == Int32Max then Diverges
      else PowLoop(lhs, rhs, Times(result, factor.v), i + 1, factor.ctx, dz)
  }

  // ------------------------------------------------ reference meaning of expressions

  /** `a` to the natural power `n`. */
  function Power(a: real, n: nat): real
  {
    if n == 0 then 1.0 else a * Power(a, n - 1)
  }

  /** The least integer not below `b`. */
  function Ceil(b: real): (c: int)
    ensures c as real >= b && (c - 1) as real < b
  {
    -((-b).Floor)
  }

  /**
   * The exponent operator as the interpreter computes it: `a` multiplied by itself
   * `max(1, ⌈b⌉)` times, and no value at all once `b` exceeds `Integer.MAX_VALUE`.
   */
  function PowValue(a: real, b: real): Option<real>
  {
    if b > Int32Max as real then None
    else if b <= 1.0 then Some(a)
    else Some(Power(a, Ceil(b)))
  }

  /** What an expression means in a variable state; `None` when evaluation never ends. */
  function Denote(e: Expr, vars: Vars, dz: real -> real): Option<real>
  {
    match e
    case Const(v) => Some(v)
    case Var(x) => Some(Read(vars, x))
    case Bin(op, lhs, rhs) =>
      match Denote(lhs, vars, dz)
      case None => None
      case Some(a) =>
        match Denote(rhs, vars, dz)
        case None => None
        case Some(b) => if op == Exponentiation then PowValue(a, b) else Some(Arith(op, a, b, dz))
  }

  lemma LemmaCeilBelow(i: int, b: real)
    ensures (i as real) < b <==> i < Ceil(b)
  {
  }

  /**
   * The traced evaluation computes the reference meaning, whatever the tracer and the log:
   * it yields a value exactly when `Denote` does, and the same value.
   */
  lemma {:induction false} LemmaEvaluateMeaning(e: Expr, ctx: Context, dz: real -> real)
    ensures Evaluate(e, ctx, dz).Value? <==> Denote(e, ctx.vars, dz).Some?
    ensures Evaluate(e, ctx, dz).Value? ==> Evaluate(e, ctx, dz).v == Denote(e, ctx.vars, dz).value
    decreases ExprSize(e), 2, 0
  {
    LemmaDoEvaluateMeaning(e, Trace(ctx, E(e), Started, None), dz);
  }

  lemma {:induction false} LemmaDoEvaluateMeaning(e: Expr, ctx: Context, dz: real -> real)
    ensures DoEvaluate(e, ctx, dz).Value? <==> Denote(e, ctx.vars, dz).Some?
    ensures DoEvaluate(e, ctx, dz).Value? ==> DoEvaluate(e, ctx, dz).v == Denote(e, ctx.vars, dz).value
    decreases ExprSize(e), 1, 0
  {
    match e
    case Const(_) =>
    case Var(_) =>
    case Bin(op, lhs, rhs) =>
      LemmaEvaluateMeaning(lhs, ctx, dz);
      var el := Evaluate(lhs, ctx, dz);
      if el.Value? {
        if op == Exponentiation {
          LemmaEvaluateMeaning(rhs, el.ctx, dz);
          if Denote(rhs, ctx.vars, dz).Some? {
            LemmaPowLoopMeaning(lhs, rhs, el.v, Denote(rhs, ctx.vars, dz).value, el.v, 1, el.ctx, dz);
          } else {
            LemmaPowLoopNoBound(lhs, rhs, el.v, 1, el.ctx, dz);
          }
        } else {
          LemmaEvaluateMeaning(rhs, el.ctx, dz);
        }
      }
  }

  /** When the exponent has no value, neither has the loop. */
  lemma LemmaPowLoopNoBound(lhs: Expr, rhs: Expr, result: real, i: int, ctx: Context, dz: real -> real)
    requires 1 <= i <= Int32Max
    requires Evaluate(rhs, ctx, dz).Diverges?
    ensures PowLoop(lhs, rhs, result, i, ctx, dz).Diverges?
  {
  }

  /**
   * The loop with counter `i` and partial product `result`, when the operands mean `a` and `b`:
   * it multiplies in `a` once for every integer from `i` below `b`, and never ends when `b`
   * exceeds `Integer.MAX_VALUE`.
   */
  lemma {:induction false} LemmaPowLoopMeaning(lhs: Expr, rhs: Expr, a: real, b: real, result: real, i: int, ctx: Context, dz: real -> real)
    requires 1 <= i <= Int32Max
    requires Denote(lhs, ctx.vars, dz) == Some(a) && Denote(rhs, ctx.vars, dz) == Some(b)
    ensures b > Int32Max as real ==> PowLoop(lhs, rhs, result, i, ctx, dz).Diverges?
    ensures b <= Int32Max as real ==>
      PowLoop(lhs, rhs, result, i, ctx, dz).Value? &&
      PowLoop(lhs, rhs, result, i, ctx, dz).v == Times(result, Power(a, if Ceil(b) > i then Ceil(b) - i else 0))
    decreases 1 + ExprSize(lhs) + ExprSize(rhs), 0, Int32Max - i
  {
    if (i as real) < b && i < Int32Max {
      LemmaEvaluateMeaning(rhs, ctx, dz);
      LemmaEvaluateMeaning(lhs, Evaluate(rhs, ctx, dz).ctx, dz);
      var c := LemmaPowLoopRound(lhs, rhs, a, b, result, i, ctx, dz);
      LemmaPowLoopMeaning(lhs, rhs, a, b, Times(result, a), i + 1, c, dz);
      LemmaPowLoopAccumulate(result, a, b, i, PowLoop(lhs, rhs, Times(result, a), i + 1, c, dz));
    } else {
      LemmaPowLoopLastRound(lhs, rhs, a, b, result, i, ctx, dz);
    }
  }

  /** The round that ends the loop: the counter has reached the exponent or `Integer.MAX_VALUE`. */
  lemma LemmaPowLoopLastRound(lhs: Expr, rhs: Expr, a: real, b: real, result: real, i: int, ctx: Context, dz: real -> real)
    requires 1 <= i <= Int32Max && !((i as real) < b && i < Int32Max)
    requires Denote(rhs, ctx.vars, dz) == Some(b)
    ensures b > Int32Max as real ==> PowLoop(lhs, rhs, result, i, ctx, dz).Diverges?
    ensures b <= Int32Max as real ==>
      PowLoop(lhs, rhs, result, i, ctx, dz).Value? &&
      PowLoop(lhs, rhs, result, i, ctx, dz).v == Times(result, Power(a, if Ceil(b) > i then Ceil(b) - i else 0))
    decreases 1 + ExprSize(lhs) + ExprSize(rhs), 0, Int32Max - i, 0
  {
    LemmaEvaluateMeaning(rhs, ctx, dz);
    if (i as real) < b {
      LemmaPowLoopOverflow(lhs, rhs, result, i, ctx, dz);
    } else {
      LemmaPowLoopStops(lhs, rhs, result, i, ctx, dz);
      LemmaPowLoopDone(result, a, b, i);
    }
  }

  /** One round of the loop with known operands: the factor is `a` and the variables are kept. */
  lemma LemmaPowLoopRound(lhs: Expr, rhs: Expr, a: real, b: real, result: real, i: int, ctx: Context, dz: real -> real)
    returns (c: Context)
    requires 1 <= i < Int32Max
    requires Evaluate(rhs, ctx, dz).Value? && Evaluate(rhs, ctx, dz).v == b && (i as real) < b
    requires Evaluate(lhs, Evaluate(rhs, ctx, dz).ctx, dz).Value? && Evaluate(lhs, Evaluate(rhs, ctx, dz).ctx, dz).v == a
    ensures c.vars == ctx.vars
    ensures PowLoop(lhs, rhs, result, i, ctx, dz) == PowLoop(lhs, rhs, Times(result, a), i + 1, c, dz)
  {
    c := Evaluate(lhs, Evaluate(rhs, ctx, dz).ctx, dz).ctx;
    LemmaPowLoopStep(lhs, rhs, result, i, ctx, dz);
  }

  /** The loop's value one round later is its value now, one factor short. */
  lemma LemmaPowLoopAccumulate(result: real, a: real, b: real, i: int, next: Eval)
    requires 1 <= i < Int32Max && (i as real) < b
    requires b <= Int32Max as real ==>
      next.Value? && next.v == Times(Times(result, a), Power(a, if Ceil(b) > i + 1 then Ceil(b) - (i + 1) else 0))
    ensures b <= Int32Max as real ==>
      next.Value? && next.v == Times(result, Power(a, if Ceil(b) > i then Ceil(b) - i else 0))
  {
    LemmaCeilBelow(i, b);
    if b <= Int32Max as real {
      LemmaTimesPower(result, a, Ceil(b) - i - 1);
    }
  }

  /** The counter has reached the exponent: no factor is left to multiply in. */
  lemma LemmaPowLoopDone(result: real, a: real, b: real, i: int)
    requires i <= Int32Max && !((i as real) < b)
    ensures b <= Int32Max as real
    ensures Times(result, Power(a, if Ceil(b) > i then Ceil(b) - i else 0)) == result
  {
    LemmaCeilBelow(i, b);
  }

  /** The loop ends with the partial product once the counter is not below the exponent. */
  lemma LemmaPowLoopStops(lhs: Expr, rhs: Expr, result: real, i: int, ctx: Context, dz: real -> real)
    requires 1 <= i <= Int32Max
    requires Evaluate(rhs, ctx, dz).Value? && !((i as real) < Evaluate(rhs, ctx, dz).v)
    ensures PowLoop(lhs, rhs, result, i, ctx, dz) == Value(result, Evaluate(rhs, ctx, dz).ctx)
  {
  }

  /** A counter at `Integer.MAX_VALUE` still below the exponent never ends. */
  lemma LemmaPowLoopOverflow(lhs: Expr, rhs: Expr, result: real, i: int, ctx: Context, dz: real -> real)
    requires i == Int32Max
    requires Evaluate(rhs, ctx, dz).Value? && (i as real) < Evaluate(rhs, ctx, dz).v
    ensures PowLoop(lhs, rhs, result, i, ctx, dz).Diverges?
  {
  }

  lemma LemmaTimesPower(result: real, a: real, k: nat)
    ensures Times(Times(result, a), Power(a, k)) == Times(result, Power(a, k + 1))
  {
    assert Power(a, k + 1) == a * Power(a, k);
    assert result * a * Power(a, k) == result * (a * Power(a, k));
  }

  /** One round of the exponent loop when the counter is below the exponent. */
  lemma LemmaPowLoopStep(lhs: Expr, rhs: Expr, result: real, i: int, ctx: Context, dz: real -> real)
    requires 1 <= i < Int32Max
    requires Evaluate(rhs, ctx, dz).Value? && (i as real) < Evaluate(rhs, ctx, dz).v
    requires Evaluate(lhs, Evaluate(rhs, ctx, dz).ctx, dz).Value?
    ensures PowLoop(lhs, rhs, result, i, ctx, dz) ==
      PowLoop(lhs, rhs, Times(result, Evaluate(lhs, Evaluate(rhs, ctx, dz).ctx, dz).v), i + 1,
              Evaluate(lhs, Evaluate(rhs, ctx, dz).ctx, dz).ctx, dz)
  {
    var bound := Evaluate(rhs, ctx, dz);
    var factor := Evaluate(lhs, bound.ctx, dz);
    var c := factor.ctx;
    assert PowLoop(lhs, rhs, result, i, ctx, dz) == PowLoop(lhs, rhs, Times(result, factor.v), i + 1, c, dz);
  }

  /** The exponent operator of the interpreter is `PowValue`. */
  lemma LemmaPowMeaning(lhs: Expr, rhs: Expr, vars: Vars, dz: real -> real)
    requires Denote(lhs, vars, dz).Some? && Denote(rhs, vars, dz).Some?
    ensures Denote(Bin(Exponentiation, lhs, rhs), vars, dz) ==
      PowValue(Denote(lhs, vars, dz).value, Denote(rhs, vars, dz).value)
  {
  }

  /**
   * The exponent operator: a right operand of at most 1 leaves the left one unchanged (so
   * `x to the power of 0` is `x`), an integer `n` from 1 to `Integer.MAX_VALUE` gives the `n`-th
   * power, and a larger exponent gives no value.
   */
  lemma LemmaPowValueCases(a: real, b: real)
    ensures b <= 1.0 ==> PowValue(a, b) == Some(a)
    ensures b > Int32Max as real <==> PowValue(a, b).None?
    ensures 1.0 <= b <= Int32Max as real && b == (b.Floor) as real ==> PowValue(a, b) == Some(Power(a, b.Floor))
  {
    if 1.0 <= b && b == (b.Floor) as real {
      assert Ceil(b) == b.Floor;
      if b <= 1.0 {
        assert b.Floor == 1;
        assert Power(a, 1) == a * Power(a, 0);
      }
    }
  }

  /** `evaluate` returns exactly what `doEvaluate` returns, and diverges exactly when it does. */
  lemma LemmaEvaluateIsDoEvaluate(e: Expr, ctx: Context, dz: real -> real)
    ensures Evaluate(e, ctx, dz).Value? <==> DoEvaluate(e, Trace(ctx, E(e), Started, None), dz).Value?
    ensures Evaluate(e, ctx, dz).Value? ==>
      Evaluate(e, ctx, dz).v == DoEvaluate(e, Trace(ctx, E(e), Started, None), dz).v
  {
  }

  /**
   * With a recording tracer, evaluation logs STARTED for the node first, before anything
   * the evaluation of its operands logs, and COMPLETED with the value last.
   */
  lemma LemmaEvaluateBrackets(e: Expr, ctx: Context, dz: real -> real)
    requires ctx.tracer.Recording?
    requires Evaluate(e, ctx, dz).Value?
    ensures |Evaluate(e, ctx, dz).ctx.log| >= |ctx.log| + 2
    ensures Evaluate(e, ctx, dz).ctx.log[..|ctx.log| + 1] == ctx.log + [Event(E(e), Started, None)]
    ensures Evaluate(e, ctx, dz).ctx.log[|Evaluate(e, ctx, dz).ctx.log| - 1] ==
      Event(E(e), Completed, Some(Evaluate(e, ctx, dz).v))
  {
    var started := Trace(ctx, E(e), Started, None);
    var d := DoEvaluate(e, started, dz);
    assert started.log == ctx.log + [Event(E(e), Started, None)];
    assert started.log <= d.ctx.log;
    assert d.ctx.log[..|ctx.log| + 1] == started.log;
  }

  // ------------------------------------------------ whose events evaluation logs

  /** `a` is `e` itself or an expression inside it. */
  predicate Within(a: Expr, e: Expr)
  {
    a == e || (e.Bin? && (Within(a, e.lhs) || Within(a, e.rhs)))
  }

  /** `a` is an expression strictly inside `e`: in one of its operands. */
  predicate Below(a: Expr, e: Expr)
  {
    e.Bin? && (Within(a, e.lhs) || Within(a, e.rhs))
  }

  /** Every event logged from position `from` on is about `e` or an expression inside it. */
  predicate EventsWithin(log: seq<Event>, from: nat, e: Expr)
  {
    forall k :: from <= k < |log| ==> log[k].node.E? && Within(log[k].node.expr, e)
  }

  /** Every event logged from position `from` on is about an expression strictly inside `e`. */
  predicate EventsBelow(log: seq<Event>, from: nat, e: Expr)
  {
    forall k :: from <= k < |log| ==> log[k].node.E? && Below(log[k].node.expr, e)
  }

  /** An expression inside `e` is no larger than `e`, and one strictly inside it is smaller. */
  lemma {:induction false} LemmaWithinSize(a: Expr, e: Expr)
    ensures Within(a, e) ==> ExprSize(a) <= ExprSize(e)
    ensures Below(a, e) ==> ExprSize(a) < ExprSize(e)
  {
    if e.Bin? {
      LemmaWithinSize(a, e.lhs);
      LemmaWithinSize(a, e.rhs);
    }
  }

  /** `evaluate` logs events only about the expression and the expressions inside it. */
  lemma {:induction false} LemmaEvaluateEvents(e: Expr, ctx: Context, dz: real -> real)
    ensures Evaluate(e, ctx, dz).Value? ==> EventsWithin(Evaluate(e, ctx, dz).ctx.log, |ctx.log|, e)
    decreases ExprSize(e), 2
  {
    var started := Trace(ctx, E(e), Started, None);
    var d := DoEvaluate(e, started, dz);
    LemmaDoEvaluateEvents(e, started, dz);
    if d.Value? {
      var log := Evaluate(e, ctx, dz).ctx.log;
      assert log == Trace(d.ctx, E(e), Completed, Some(d.v)).log;
      forall k | |ctx.log| <= k < |log| ensures log[k].node.E? && Within(log[k].node.expr, e) {
        if k < |started.log| {
          assert log[k] == started.log[k] == Event(E(e), Started, None);
        } else if k < |d.ctx.log| {
          assert log[k] == d.ctx.log[k];
        } else {
          assert log[k] == Event(E(e), Completed, Some(d.v));
        }
      }
    }
  }

  /**
   * `doEvaluate` logs no event about the expression itself: every event it logs is about an
   * expression in one of its operands, traced by that operand's own `evaluate`.
   */
  lemma {:induction false} LemmaDoEvaluateEvents(e: Expr, ctx: Context, dz: real -> real)
    ensures DoEvaluate(e, ctx, dz).Value? ==> EventsBelow(DoEvaluate(e, ctx, dz).ctx.log, |ctx.log|, e)
    decreases ExprSize(e), 1
  {
    if e.Bin? {
      var left := Evaluate(e.lhs, ctx, dz);
      LemmaEvaluateEvents(e.lhs, ctx, dz);
      if left.Value? {
        if e.op == Exponentiation {
          LemmaPowLoopEvents(e.lhs, e.rhs, left.v, 1, left.ctx, dz);
          if DoEvaluate(e, ctx, dz).Value? {
            var log := DoEvaluate(e, ctx, dz).ctx.log;
            forall k | |ctx.log| <= k < |log| ensures log[k].node.E? && Below(log[k].node.expr, e) {
              if k < |left.ctx.log| {
                assert Within(log[k].node.expr, e.lhs);
              }
            }
          }
        } else {
          var right := Evaluate(e.rhs, left.ctx, dz);
          LemmaEvaluateEvents(e.rhs, left.ctx, dz);
          if right.Value? {
            var log := right.ctx.log;
            forall k | |ctx.log| <= k < |log| ensures log[k].node.E? && Below(log[k].node.expr, e) {
              if k < |left.ctx.log| {
                assert Within(log[k].node.expr, e.lhs);
              } else {
                assert Within(log[k].node.expr, e.rhs);
              }
            }
          }
        }
      }
    }
  }

  /** Each round of the exponent loop logs only what evaluating its two operands logs. */
  lemma {:induction false} LemmaPowLoopEvents(lhs: Expr, rhs: Expr, result: real, i: int, ctx: Context, dz: real -> real)
    requires 1 <= i <= Int32Max
    ensures PowLoop(lhs, rhs, result, i, ctx, dz).Value? ==>
      EventsBelow(PowLoop(lhs, rhs, result, i, ctx, dz).ctx.log, |ctx.log|, Bin(Exponentiation, lhs, rhs))
    decreases 1 + ExprSize(lhs) + ExprSize(rhs), 0, Int32Max - i
  {
    var e := Bin(Exponentiation, lhs, rhs);
    var bound := Evaluate(rhs, ctx, dz);
    LemmaEvaluateEvents(rhs, ctx, dz);
    if bound.Value? && (i as real) < bound.v {
      var factor := Evaluate(lhs, bound.ctx, dz);
      LemmaEvaluateEvents(lhs, bound.ctx, dz);
      if factor.Value? && i < Int32Max {
        var next := Times(result, factor.v);
        LemmaPowLoopEvents(lhs, rhs, next, i + 1, factor.ctx, dz);
        var r := PowLoop(lhs, rhs, result, i, ctx, dz);
        assert r == PowLoop(lhs, rhs, next, i + 1, factor.ctx, dz);
        if r.Value? {
          forall k | |ctx.log| <= k < |r.ctx.log| ensures r.ctx.log[k].node.E? && Below(r.ctx.log[k].node.expr, e) {
            if k < |bound.ctx.log| {
              assert Within(r.ctx.log[k].node.expr, rhs);
            } else if k < |factor.ctx.log| {
              assert Within(r.ctx.log[k].node.expr, lhs);
            }
          }
        }
      }
    }
  }

  /** In particular `doEvaluate` never logs a STARTED or COMPLETED event for the expression it evaluates. */
  lemma LemmaDoEvaluateNoOwnEvent(e: Expr, ctx: Context, dz: real -> real)
    ensures DoEvaluate(e, ctx, dz).Value? ==>
      forall k :: |ctx.log| <= k < |DoEvaluate(e, ctx, dz).ctx.log| ==> DoEvaluate(e, ctx, dz).ctx.log[k].node != E(e)
  {
    LemmaDoEvaluateEvents(e, ctx, dz);
    var r := DoEvaluate(e, ctx, dz);
    if r.Value? {
      forall k | |ctx.log| <= k < |r.ctx.log| ensures r.ctx.log[k].node != E(e) {
        LemmaWithinSize(r.ctx.log[k].node.expr, e);
      }
    }
  }

  // ------------------------------------------------ statements

  /**
   * How running a statement ends: normally, by the loop-exit signal (`LoopExited`), or not at
   * all within the fuel given (a loop that has not stopped, or an exponent loop that never does).
   */
  datatype Outcome = Normal(ctx: Context) | Exited(ctx: Context) | OutOfFuel

  /** The three comparisons of a conditional on doubles. */
  function Compare(op: CmpOp, a: real, b: real): bool
  {
    match op
    case EqualTo => a == b
    case LessThan => a < b
    case GreaterThan => a > b
  }

  /**
   * `run`: STARTED, then the class's own behaviour, then COMPLETED with no result; COMPLETED is
   * also reported when the statement ends with the loop-exit signal, which then travels on.
   */
  function Run(s: Stmt, ctx: Context, fuel: nat, dz: real -> real): (r: Outcome)
    ensures !r.OutOfFuel? ==> r.ctx.tracer == ctx.tracer && ctx.log <= r.ctx.log
    ensures !r.OutOfFuel? && ctx.tracer.Silent? ==> r.ctx.log == ctx.log
    decreases fuel, StmtSize(s), 2
  {
    match DoRun(s, Trace(ctx, S(s), Started, None), fuel, dz)
    case Normal(c) => Normal(Trace(c, S(s), Completed, None))
    case Exited(c) => Exited(Trace(c, S(s), Completed, None))
    case OutOfFuel => OutOfFuel
  }

  /** What each statement class does when run. */
  function DoRun(s: Stmt, ctx: Context, fuel: nat, dz: real -> real): (r: Outcome)
    ensures !r.OutOfFuel? ==> r.ctx.tracer == ctx.tracer && ctx.log <= r.ctx.log
    ensures !r.OutOfFuel? && ctx.tracer.Silent? ==> r.ctx.log == ctx.log
    decreases fuel, StmtSize(s), 1
  {
    match s
    case Assign(x, e) =>
      var ev := Evaluate(e, ctx, dz);
      if ev.Diverges? then OutOfFuel else Normal(Set(ev.ctx, x, ev.v))
    case Block(ss) => RunAll(ss, ctx, fuel, dz)
    case Cond(op, lhs, rhs, ifTrue, ifFalse) =>
      var left := DoEvaluate(lhs, ctx, dz);
      if left.Diverges? then OutOfFuel
      else
        var right := DoEvaluate(rhs, left.ctx, dz);
        if right.Diverges? then OutOfFuel
        else if Compare(op, left.v, right.v) then DoRun(ifTrue, right.ctx, fuel, dz)
        else DoRun(ifFalse, right.ctx, fuel, dz)
    case Loop(body) => Repeat(body, ctx, fuel, dz)
    case Exit => Exited(ctx)
  }

  /** A block runs its statements in order; the first one that does not end normally ends it. */
  function RunAll(ss: seq<Stmt>, ctx: Context, fuel: nat, dz: real -> real): (r: Outcome)
    ensures !r.OutOfFuel? ==> r.ctx.tracer == ctx.tracer && ctx.log <= r.ctx.log
    ensures !r.OutOfFuel? && ctx.tracer.Silent? ==> r.ctx.log == ctx.log
    decreases fuel, StmtsSize(ss), 3
  {
    if ss == [] then Normal(ctx)
    else
      var first := Run(ss[0], ctx, fuel, dz);
      if first.Normal? then RunAll(ss[1..], first.ctx, fuel, dz) else first
  }

  /**
   * `LoopNode.doRun`: run the body again and again; the loop-exit signal from the body ends the
   * loop normally. Each round costs one unit of fuel.
   */
  function Repeat(body: Stmt, ctx: Context, fuel: nat, dz: real -> real): (r: Outcome)
    ensures !r.OutOfFuel? ==> r.ctx.tracer == ctx.tracer && ctx.log <= r.ctx.log
    ensures !r.OutOfFuel? && ctx.tracer.Silent? ==> r.ctx.log == ctx.log
    decreases fuel, StmtSize(body), 3
  {
    if fuel == 0 then OutOfFuel
    else
      var round := Run(body, ctx, fuel - 1, dz);
      match round
      case Normal(c) => Repeat(body, c, fuel - 1, dz)
      case Exited(c) => Normal(c)
      case OutOfFuel => OutOfFuel
  }
}
