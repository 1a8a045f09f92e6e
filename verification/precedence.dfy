/**
 * Precedence and grouping in `WordyParser`'s expression rules. "to the power of" binds tighter
 * than "times" and "divided by", which bind tighter than "plus" and "minus". The multiplicative
 * and additive operators group to the left and "to the power of" groups to the right. "squared"
 * squares the exponential operand just read. Parentheses override all of these.
 *
 * The partner of the parser here is `Grouped`: the conventional reading of "a o1 b o2 c",
 * defined from the operators' levels alone. Operands are canonical texts (`Wording.Show`), so a
 * compound operand stands in parentheses.
 */
module Precedence {
  import opened Wrappers
  import opened Ast
  import P = Parser
  import opened Reading
  import opened Wording
  import Text

  /** How tightly an operator binds: powers 3, products 2, sums 1. */
  function Level(op: BinOp): nat
  {
    match op
    case Addition => 1
    case Subtraction => 1
    case Multiplication => 2
    case Division => 2
    case Exponentiation => 3
  }

  /**
   * The conventional reading of "a o1 b o2 c": the second operator takes `b` first when it binds
   * tighter, or when both are powers (right grouping); otherwise the first operator does.
   */
  function Grouped(a: Expr, o1: BinOp, b: Expr, o2: BinOp, c: Expr): Expr
  {
    if o2 == Exponentiation || Level(o1) < Level(o2) then Bin(o1, a, Bin(o2, b, c))
    else Bin(o2, Bin(o1, a, b), c)
  }

  /** "l op r", the operands in canonical text. */
  function Two(l: Expr, op: BinOp, r: Expr): string
    requires Printable(l) && Printable(r)
  {
    Show(l) + " " + OpText(op) + " " + Show(r)
  }

  /** "a o1 b o2 c", the operands in canonical text. */
  function Three(a: Expr, o1: BinOp, b: Expr, o2: BinOp, c: Expr): string
    requires Printable(a) && Printable(b) && Printable(c)
  {
    Show(a) + " " + OpText(o1) + " " + Two(b, o2, c)
  }

  /** `e` squared `n` times over, each "squared" applying to the result so far. */
  function Squares(e: Expr, n: nat): Expr
  {
    if n == 0 then e else Bin(Exponentiation, Squares(e, n - 1), Const(2.0))
  }

  /** " squared", `n` times. */
  function SquaredTail(n: nat): string
  {
    if n == 0 then "" else " squared" + SquaredTail(n - 1)
  }

  // ------------------------------------------------ what is read where

  predicate OperatorAt(s: string, j: nat, op: BinOp, k: nat)
  {
    j <= |s| && P.At(s, j, OpText(op)) && P.KeyPhrase(s, j, OpWords(op)) == Some(k)
  }

  /** The atom `e` read from `i` up to `j`, then the operator `op` read from `j` up to `k`. */
  predicate OperandThen(s: string, i: nat, e: Expr, j: nat, op: BinOp, k: nat)
  {
    i <= |s| && P.Atom(s, i) == Some(P.Match(e, j)) && OperatorAt(s, j, op, k)
  }

  /** The atom `e` read from `i` to the end of the text. */
  predicate LastOperand(s: string, i: nat, e: Expr)
  {
    i <= |s| && P.Atom(s, i) == Some(P.Match(e, |s|)) && NoOperatorAt(s, |s|)
  }

  lemma LemmaOperandThen(e: Expr, op: BinOp, s: string, i: nat, j: nat, k: nat)
    requires Printable(e) && j == i + |Show(e)| + 1 && k == j + |OpText(op)| + 1 && k < |s|
    requires P.At(s, i, Show(e)) && s[j - 1] == ' ' && P.At(s, j, OpText(op)) && s[k - 1] == ' ' && s[k] != ' '
    ensures OperandThen(s, i, e, j, op, k)
  {
    LemmaOpAt(op, s, j);
    LemmaAtomBeforeWord(e, s, i, j);
  }

  /** An operand followed by one space and a word is read up to that word. */
  lemma LemmaAtomBeforeWord(e: Expr, s: string, i: nat, j: nat)
    requires Printable(e) && P.At(s, i, Show(e)) && j == i + |Show(e)| + 1 && j < |s|
    requires s[j - 1] == ' ' && s[j] != ' '
    ensures P.Atom(s, i) == Some(P.Match(e, j))
  {
    LemmaReadOperand(e, s, i, j - 1);
  }

  lemma LemmaLastOperand(e: Expr, s: string, i: nat)
    requires Printable(e) && P.At(s, i, Show(e)) && i + |Show(e)| == |s|
    ensures LastOperand(s, i, e)
  {
    LemmaReadShow(e, s, i);
    LemmaNoSpace(s, |s|);
    LemmaNoOperatorAtEnd(s);
  }

  /** Where the operands and the operator of "l op r" are read. */
  lemma LemmaTwoPlaces(l: Expr, op: BinOp, r: Expr, s: string, i: nat, b: nat, q: nat)
    requires Printable(l) && Printable(r) && P.At(s, i, Two(l, op, r))
    requires b == i + |Show(l)| + 1 && q == b + |OpText(op)| + 1
    ensures OperandThen(s, i, l, b, op, q) && P.At(s, q, Show(r)) && q + |Show(r)| == i + |Two(l, op, r)|
  {
    LemmaInsidePlaces(s, i, Show(l), OpText(op), Show(r), b, q);
    LemmaShowStart(r);
    LemmaAtIndex(s, q, Show(r), 0);
    LemmaOperandThen(l, op, s, i, b, q);
  }

  /** Where the operands and the operators of "a o1 b o2 c" are read. */
  lemma LemmaThreeLaid(a: Expr, o1: BinOp, b: Expr, o2: BinOp, c: Expr, s: string, b1: nat, q1: nat, b2: nat, q2: nat)
    requires Printable(a) && Printable(b) && Printable(c) && s == Three(a, o1, b, o2, c)
    requires b1 == |Show(a)| + 1 && q1 == b1 + |OpText(o1)| + 1
    requires b2 == q1 + |Show(b)| + 1 && q2 == b2 + |OpText(o2)| + 1
    ensures OperandThen(s, 0, a, b1, o1, q1) && OperandThen(s, q1, b, b2, o2, q2) && LastOperand(s, q2, c)
  {
    var t := Two(b, o2, c);
    LemmaShowStart(b);
    assert t[0] == Show(b)[0];
    LemmaThreeOuter(a, o1, t, s, b1, q1);
    LemmaTwoPlaces(b, o2, c, s, q1, b2, q2);
    LemmaLastOperand(c, s, q2);
  }

  /** The first operand and operator of "a o1 t", where `t` starts with an operand's text. */
  lemma LemmaThreeOuter(a: Expr, o1: BinOp, t: string, s: string, b1: nat, q1: nat)
    requires Printable(a) && s == Show(a) + " " + OpText(o1) + " " + t && t != [] && t[0] != ' '
    requires b1 == |Show(a)| + 1 && q1 == b1 + |OpText(o1)| + 1
    ensures OperandThen(s, 0, a, b1, o1, q1) && P.At(s, q1, t) && q1 + |t| == |s|
  {
    assert P.At(s, 0, s);
    LemmaInsidePlaces(s, 0, Show(a), OpText(o1), t, b1, q1);
    LemmaAtIndex(s, q1, t, 0);
    LemmaOperandThen(a, o1, s, 0, b1, q1);
  }

  // ------------------------------------------------ one operator

  /** A single operator between two operands joins them, whatever its kind. */
  lemma LemmaTwoOperands(l: Expr, op: BinOp, r: Expr)
    requires Printable(l) && Printable(r)
    ensures P.ParseExpression(Two(l, op, r)) == Some(Bin(op, l, r))
  {
    var s := Two(l, op, r);
    var b := |Show(l)| + 1;
    var q := b + |OpText(op)| + 1;
    assert P.At(s, 0, s);
    LemmaTwoPlaces(l, op, r, s, 0, b, q);
    LemmaLastOperand(r, s, q);
    LemmaReadMiddle(op, l, r, s, 0, b, q, |s|);
    LemmaTwoNormal(l, op, r);
    LemmaParseWhole(s, Bin(op, l, r));
  }

  // ------------------------------------------------ two operators

  /** Two operators group as `Grouped` says. */
  lemma LemmaThreeOperands(a: Expr, o1: BinOp, b: Expr, o2: BinOp, c: Expr)
    requires Printable(a) && Printable(b) && Printable(c)
    ensures P.ParseExpression(Three(a, o1, b, o2, c)) == Some(Grouped(a, o1, b, o2, c))
  {
    var s := Three(a, o1, b, o2, c);
    var b1 := |Show(a)| + 1;
    var q1 := b1 + |OpText(o1)| + 1;
    var b2 := q1 + |Show(b)| + 1;
    var q2 := b2 + |OpText(o2)| + 1;
    LemmaThreeLaid(a, o1, b, o2, c, s, b1, q1, b2, q2);
    LemmaThreeRead(a, o1, b, o2, c, s, b1, q1, b2, q2);
    LemmaThreeNormal(a, o1, b, o2, c);
    LemmaParseWhole(s, Grouped(a, o1, b, o2, c));
  }

  lemma LemmaThreeRead(a: Expr, o1: BinOp, b: Expr, o2: BinOp, c: Expr, s: string, b1: nat, q1: nat, b2: nat, q2: nat)
    requires OperandThen(s, 0, a, b1, o1, q1) && OperandThen(s, q1, b, b2, o2, q2) && LastOperand(s, q2, c)
    ensures P.Expression(s, 0) == Some(P.Match(Grouped(a, o1, b, o2, c), |s|))
  {
    var g := Grouped(a, o1, b, o2, c);
    if o2 == Exponentiation {
      assert g == Bin(o1, a, Bin(o2, b, c));
      LemmaPowerLast(a, o1, b, c, s, b1, q1, b2, q2);
    } else if Level(o1) < Level(o2) {
      assert g == Bin(o1, a, Bin(o2, b, c));
      LemmaProductLast(a, o1, b, o2, c, s, b1, q1, b2, q2);
    } else {
      assert g == Bin(o2, Bin(o1, a, b), c);
      LemmaLeftFirst(a, o1, b, o2, c, s, b1, q1, b2, q2);
    }
  }

  /** When the first operator binds at least as tightly and the second is not a power, the first joins first. */
  lemma LemmaLeftFirst(a: Expr, o1: BinOp, b: Expr, o2: BinOp, c: Expr, s: string, b1: nat, q1: nat, b2: nat, q2: nat)
    requires o2 != Exponentiation && Level(o1) >= Level(o2)
    requires OperandThen(s, 0, a, b1, o1, q1) && OperandThen(s, q1, b, b2, o2, q2) && LastOperand(s, q2, c)
    ensures P.Expression(s, 0) == Some(P.Match(Bin(o2, Bin(o1, a, b), c), |s|))
  {
    if o1 == Exponentiation {
      LemmaPowerFirst(a, b, o2, s, b1, q1, b2, q2);
      LemmaAfterFactor(Bin(o1, a, b), o2, c, s, b2, q2);
    } else if Level(o2) == 2 {
      LemmaProductsLeft(a, o1, b, o2, c, s, b1, q1, b2, q2);
    } else if Level(o1) == 2 {
      LemmaProductFirst(a, o1, b, o2, s, b1, q1, b2, q2);
      LemmaAfterTerm(Bin(o1, a, b), o2, c, s, b2, q2);
    } else {
      LemmaSumsLeft(a, o1, b, o2, c, s, b1, q1, b2, q2);
    }
  }

  /** "to the power of" second: its operands join first, and the result is the first operator's right operand. */
  lemma LemmaPowerLast(a: Expr, o1: BinOp, b: Expr, c: Expr, s: string, b1: nat, q1: nat, b2: nat, q2: nat)
    requires OperandThen(s, 0, a, b1, o1, q1) && OperandThen(s, q1, b, b2, Exponentiation, q2) && LastOperand(s, q2, c)
    ensures P.Expression(s, 0) == Some(P.Match(Bin(o1, a, Bin(Exponentiation, b, c)), |s|))
  {
    LemmaOperand(s, q2, c, |s|);
    LemmaPowerWords(s, b2, q2);
    LemmaPowerStep(s, b2, b, q2, c, |s|);
    LemmaExponentialFrom(s, q1, b, b2, Bin(Exponentiation, b, c), |s|);
    LemmaJoinRight(o1, a, Bin(Exponentiation, b, c), s, 0, b1, q1, |s|);
  }

  lemma LemmaPowerWords(s: string, j: nat, k: nat)
    requires OperatorAt(s, j, Exponentiation, k)
    ensures P.KeyPhrase(s, j, P.PowerOf) == Some(k)
  {
  }

  /** A sum then a product: the product joins first. */
  lemma LemmaProductLast(a: Expr, o1: BinOp, b: Expr, o2: BinOp, c: Expr, s: string, b1: nat, q1: nat, b2: nat, q2: nat)
    requires Level(o1) == 1 && Level(o2) == 2
    requires OperandThen(s, 0, a, b1, o1, q1) && OperandThen(s, q1, b, b2, o2, q2) && LastOperand(s, q2, c)
    ensures P.Expression(s, 0) == Some(P.Match(Bin(o1, a, Bin(o2, b, c)), |s|))
  {
    LemmaBeforeProduct(o2, s, q1, b, b2);
    LemmaProductOp(o2, s, b2, q2);
    LemmaOperand(s, q2, c, |s|);
    LemmaMultiplicativeStep(s, b2, b, o2, q2, c, |s|);
    assert P.Multiplicative(s, q1) == Some(P.Match(Bin(o2, b, c), |s|));
    LemmaReadSum(o1, a, Bin(o2, b, c), s, 0, b1, q1, |s|);
  }

  /** "to the power of" first, then a product or a sum: the power is a whole exponential operand. */
  lemma LemmaPowerFirst(a: Expr, b: Expr, o2: BinOp, s: string, b1: nat, q1: nat, b2: nat, q2: nat)
    requires o2 != Exponentiation
    requires OperandThen(s, 0, a, b1, Exponentiation, q1) && OperandThen(s, q1, b, b2, o2, q2)
    ensures P.Exponential(s, 0) == Some(P.Match(Bin(Exponentiation, a, b), b2))
  {
    LemmaNoPowerAt(o2, s, b2, b);
    LemmaExponentialFrom(s, q1, b, b2, b, b2);
    LemmaPowerWords(s, b1, q1);
    LemmaPowerMore(s, b1, a, q1, b, b2);
    LemmaNoPowerAt(o2, s, b2, Bin(Exponentiation, a, b));
    LemmaExponentialFrom(s, 0, a, b1, Bin(Exponentiation, a, b), b2);
  }

  /** A product, then a sum: the product is a whole multiplicative operand. */
  lemma LemmaProductFirst(a: Expr, o1: BinOp, b: Expr, o2: BinOp, s: string, b1: nat, q1: nat, b2: nat, q2: nat)
    requires Level(o1) == 2 && Level(o2) == 1
    requires OperandThen(s, 0, a, b1, o1, q1) && OperandThen(s, q1, b, b2, o2, q2)
    ensures P.Multiplicative(s, 0) == Some(P.Match(Bin(o1, a, b), b2))
  {
    LemmaBeforeProduct(o1, s, 0, a, b1);
    LemmaProductOp(o1, s, b1, q1);
    LemmaBeforeSum(o2, s, q1, b, b2);
    LemmaMultiplicativeMore(s, b1, a, o1, q1, b, b2);
    LemmaNoProductAt(o2, s, b2, Bin(o1, a, b));
  }

  /** Two products group to the left. */
  lemma LemmaProductsLeft(a: Expr, o1: BinOp, b: Expr, o2: BinOp, c: Expr, s: string, b1: nat, q1: nat, b2: nat, q2: nat)
    requires Level(o1) == 2 && Level(o2) == 2
    requires OperandThen(s, 0, a, b1, o1, q1) && OperandThen(s, q1, b, b2, o2, q2) && LastOperand(s, q2, c)
    ensures P.Expression(s, 0) == Some(P.Match(Bin(o2, Bin(o1, a, b), c), |s|))
  {
    LemmaProductsPair(a, o1, b, o2, s, b1, q1, b2, q2);
    LemmaProductOp(o2, s, b2, q2);
    LemmaOperand(s, q2, c, |s|);
    LemmaMultiplicativeStep(s, b2, Bin(o1, a, b), o2, q2, c, |s|);
    LemmaTerm(s, 0, Bin(o2, Bin(o1, a, b), c), |s|);
  }

  /** Two sums group to the left. */
  lemma LemmaSumsLeft(a: Expr, o1: BinOp, b: Expr, o2: BinOp, c: Expr, s: string, b1: nat, q1: nat, b2: nat, q2: nat)
    requires Level(o1) == 1 && Level(o2) == 1
    requires OperandThen(s, 0, a, b1, o1, q1) && OperandThen(s, q1, b, b2, o2, q2) && LastOperand(s, q2, c)
    ensures P.Expression(s, 0) == Some(P.Match(Bin(o2, Bin(o1, a, b), c), |s|))
  {
    LemmaSumsPair(a, o1, b, o2, s, b1, q1, b2, q2);
    LemmaSumOp(o2, s, b2, q2);
    LemmaOperand(s, q2, c, |s|);
    LemmaAdditiveStep(s, b2, Bin(o1, a, b), o2, q2, c, |s|);
  }

  /** The first of two products joins its operands, and the loop goes on. */
  lemma LemmaProductsPair(a: Expr, o1: BinOp, b: Expr, o2: BinOp, s: string, b1: nat, q1: nat, b2: nat, q2: nat)
    requires Level(o1) == 2 && Level(o2) == 2
    requires OperandThen(s, 0, a, b1, o1, q1) && OperandThen(s, q1, b, b2, o2, q2)
    ensures P.Exponential(s, 0) == Some(P.Match(a, b1)) && P.ExprNamesFrom(Bin(o1, a, b), s)
    ensures P.MultiplicativeRest(s, b1, a) == P.MultiplicativeRest(s, b2, Bin(o1, a, b))
  {
    LemmaBeforeProduct(o1, s, 0, a, b1);
    LemmaProductOp(o1, s, b1, q1);
    LemmaBeforeProduct(o2, s, q1, b, b2);
    LemmaMultiplicativeMore(s, b1, a, o1, q1, b, b2);
  }

  /** The first of two sums joins its operands, and the loop goes on. */
  lemma LemmaSumsPair(a: Expr, o1: BinOp, b: Expr, o2: BinOp, s: string, b1: nat, q1: nat, b2: nat, q2: nat)
    requires Level(o1) == 1 && Level(o2) == 1
    requires OperandThen(s, 0, a, b1, o1, q1) && OperandThen(s, q1, b, b2, o2, q2)
    ensures P.Multiplicative(s, 0) == Some(P.Match(a, b1)) && P.ExprNamesFrom(Bin(o1, a, b), s)
    ensures P.AdditiveRest(s, b1, a) == P.AdditiveRest(s, b2, Bin(o1, a, b))
  {
    LemmaBeforeSum(o1, s, 0, a, b1);
    LemmaSumOp(o1, s, b1, q1);
    LemmaBeforeSum(o2, s, q1, b, b2);
    LemmaAdditiveMore(s, b1, a, o1, q1, b, b2);
  }

  /** A whole exponential operand, then a product or a sum and a last operand. */
  lemma LemmaAfterFactor(l: Expr, op: BinOp, c: Expr, s: string, b: nat, q: nat)
    requires op != Exponentiation
    requires P.Exponential(s, 0) == Some(P.Match(l, b)) && OperatorAt(s, b, op, q) && LastOperand(s, q, c)
    ensures P.Expression(s, 0) == Some(P.Match(Bin(op, l, c), |s|))
  {
    if Level(op) == 2 {
      LemmaProductOp(op, s, b, q);
      LemmaOperand(s, q, c, |s|);
      LemmaMultiplicativeStep(s, b, l, op, q, c, |s|);
      LemmaTerm(s, 0, Bin(op, l, c), |s|);
    } else {
      LemmaNoProductAt(op, s, b, l);
      LemmaAfterTerm(l, op, c, s, b, q);
    }
  }

  /** A whole multiplicative operand, then a sum and a last operand. */
  lemma LemmaAfterTerm(l: Expr, op: BinOp, c: Expr, s: string, b: nat, q: nat)
    requires Level(op) == 1
    requires P.Multiplicative(s, 0) == Some(P.Match(l, b)) && OperatorAt(s, b, op, q) && LastOperand(s, q, c)
    ensures P.Expression(s, 0) == Some(P.Match(Bin(op, l, c), |s|))
  {
    LemmaSumOp(op, s, b, q);
    LemmaOperand(s, q, c, |s|);
    LemmaAdditiveStep(s, b, l, op, q, c, |s|);
  }

  // ------------------------------------------------ "squared"

  /** Each "squared" squares everything read before it in the same exponential operand. */
  lemma LemmaSquared(e: Expr, n: nat)
    requires Printable(e)
    ensures P.ParseExpression(Show(e) + SquaredTail(n)) == Some(Squares(e, n))
  {
    var s := Show(e) + SquaredTail(n);
    assert P.At(s, 0, s);
    LemmaAtConcat(s, 0, Show(e), SquaredTail(n));
    LemmaSquaresRead(e, n, s, 0, |Show(e)|);
    LemmaNoOperatorAtEnd(s);
    LemmaFactor(s, 0, Squares(e, n), |s|);
    LemmaShowNormal(e);
    LemmaTailNormal(n);
    LemmaNormalConcat(Show(e), SquaredTail(n));
    LemmaParseWhole(s, Squares(e, n));
  }

  /** In "a to the power of b squared ...", the squares apply to the exponent `b`. */
  lemma LemmaPowerOfSquared(a: Expr, b: Expr, n: nat)
    requires Printable(a) && Printable(b)
    ensures P.ParseExpression(Two(a, Exponentiation, b) + SquaredTail(n)) == Some(Bin(Exponentiation, a, Squares(b, n)))
  {
    var t := Two(a, Exponentiation, b);
    var s := t + SquaredTail(n);
    var k := |Show(a)| + 1;
    var q := k + |OpText(Exponentiation)| + 1;
    LemmaPowerOfLaid(a, b, n, s, k, q);
    LemmaSquaresRead(b, n, s, q, q + |Show(b)|);
    LemmaNoOperatorAtEnd(s);
    LemmaJoinRight(Exponentiation, a, Squares(b, n), s, 0, k, q, |s|);
    LemmaTwoNormal(a, Exponentiation, b);
    LemmaTailNormal(n);
    LemmaNormalConcat(t, SquaredTail(n));
    LemmaParseWhole(s, Bin(Exponentiation, a, Squares(b, n)));
  }

  /** An operand's canonical text followed by " squared" `n` times to the end: one exponential operand. */
  lemma LemmaSquaresRead(e: Expr, n: nat, s: string, q: nat, j: nat)
    requires Printable(e) && P.At(s, q, Show(e)) && j == q + |Show(e)| && TailAt(s, j, n)
    ensures q <= |s| && P.Exponential(s, q) == Some(P.Match(Squares(e, n), |s|))
  {
    var i := LemmaOperandBeforeTail(e, n, s, q, j);
    LemmaWordsAfterOperand(e, n, s, i);
    LemmaBeforeTail(e, n, s, q, j, i);
    LemmaExponentialFrom(s, q, e, i, Squares(e, n), |s|);
  }

  /** The " squared" words after an operand are read by the exponential loop, squaring it `n` times. */
  lemma LemmaWordsAfterOperand(e: Expr, n: nat, s: string, i: nat)
    requires P.ExprNamesFrom(e, s) && WordsFrom(s, i, n)
    ensures P.ExponentialRest(s, i, e) == P.Match(Squares(e, n), |s|)
  {
    LemmaSquaredLoop(s, i, e, n);
    LemmaSquaredFromOperand(e, n);
  }

  lemma LemmaSquaredFromOperand(e: Expr, n: nat)
    ensures SquaredTimes(e, n) == Squares(e, n)
  {
    LemmaSquaredTimes(e, 0, n);
    assert Squares(e, 0) == e;
  }

  /** The names of an operand before " squared" words come from the text, and the words follow it. */
  lemma LemmaOperandBeforeTail(e: Expr, n: nat, s: string, q: nat, j: nat) returns (i: nat)
    requires Printable(e) && P.At(s, q, Show(e)) && j == q + |Show(e)| && TailAt(s, j, n)
    ensures j <= |s| && i == P.OptionalSpace(s, j)
    ensures P.ExprNamesFrom(e, s) && WordsFrom(s, i, n)
  {
    i := P.OptionalSpace(s, j);
    LemmaBeforeTail(e, n, s, q, j, i);
    LemmaWordsFrom(s, i, n);
  }

  /** The operand before the " squared" words is read up to the first of them. */
  lemma LemmaBeforeTail(e: Expr, n: nat, s: string, q: nat, j: nat, i: nat)
    requires Printable(e) && P.At(s, q, Show(e)) && j == q + |Show(e)| && TailAt(s, j, n)
    requires j <= |s| && i == P.OptionalSpace(s, j)
    ensures q <= |s| && P.Atom(s, q) == Some(P.Match(e, i)) && WordsAt(s, i, n)
  {
    LemmaTailEnds(s, j, n);
    LemmaReadShow(e, s, q);
    LemmaTailWords(s, j, n);
  }

  lemma LemmaPowerOfLaid(a: Expr, b: Expr, n: nat, s: string, k: nat, q: nat)
    requires Printable(a) && Printable(b) && s == Two(a, Exponentiation, b) + SquaredTail(n)
    requires k == |Show(a)| + 1 && q == k + |OpText(Exponentiation)| + 1
    ensures OperandThen(s, 0, a, k, Exponentiation, q) && P.At(s, q, Show(b)) && TailAt(s, q + |Show(b)|, n)
  {
    var t := Two(a, Exponentiation, b);
    assert P.At(s, 0, s);
    LemmaAtConcat(s, 0, t, SquaredTail(n));
    LemmaTwoPlaces(a, Exponentiation, b, s, 0, k, q);
  }

  /** Where " squared" stands, or the text ends, an operand's text ends. */
  lemma LemmaTailEnds(s: string, j: nat, n: nat)
    requires TailAt(s, j, n)
    ensures Ends(s, j)
  {
    if n > 0 {
      LemmaAtIndex(s, j, SquaredTail(n), 0);
    }
  }

  /** " squared", `r` times, stands from `j` to the end of the text. */
  predicate TailAt(s: string, j: nat, r: nat)
  {
    P.At(s, j, SquaredTail(r)) && j + |SquaredTail(r)| == |s|
  }

  /** The words "squared", `r` of them, stand from `i` to the end of the text, one space apart. */
  predicate WordsAt(s: string, i: nat, r: nat)
  {
    if r == 0 then i == |s|
    else P.At(s, i, "squared" + SquaredTail(r - 1)) && i + 7 + |SquaredTail(r - 1)| == |s|
  }

  /** The `r` words "squared", one space apart. */
  function Words(r: nat): string
  {
    if r == 0 then "" else "squared" + SquaredTail(r - 1)
  }

  /** `WordsAt` stated on the rest of the text, without a quantifier. */
  predicate WordsFrom(s: string, i: nat, r: nat)
  {
    i <= |s| && s[i..] == Words(r)
  }

  lemma LemmaWordsFrom(s: string, i: nat, r: nat)
    requires i <= |s|
    ensures WordsFrom(s, i, r) <==> WordsAt(s, i, r)
  {
    var w := Words(r);
    if WordsAt(s, i, r) {
      assert |s[i..]| == |w|;
      forall k | 0 <= k < |w| ensures s[i..][k] == w[k] {
        assert s[i + k] == w[k];
      }
    }
    if WordsFrom(s, i, r) {
      forall k | 0 <= k < |w| ensures s[i + k] == w[k] {
        assert s[i..][k] == s[i + k];
      }
    }
  }

  /** Where the next word starts after a "squared" read at `i`. */
  function NextWord(s: string, i: nat, r: nat): nat
  {
    if r <= 1 then |s| else i + 8
  }

  /** `acc` squared `r` more times, as the exponential loop builds it. */
  function SquaredTimes(acc: Expr, r: nat): Expr
    decreases r
  {
    if r == 0 then acc else SquaredTimes(Bin(Exponentiation, acc, Const(2.0)), r - 1)
  }

  /** Squaring `r` more times what was squared `m` times is squaring `m + r` times. */
  lemma {:induction false} LemmaSquaredTimes(e: Expr, m: nat, r: nat)
    ensures SquaredTimes(Squares(e, m), r) == Squares(e, m + r)
    decreases r
  {
    if r > 0 {
      LemmaSquaredTimes(e, m + 1, r - 1);
    }
  }

  /** The exponential loop over the last `r` words "squared", from `i`, with `acc` read so far. */
  lemma {:induction false} LemmaSquaredLoop(s: string, i: nat, acc: Expr, r: nat)
    requires WordsFrom(s, i, r) && P.ExprNamesFrom(acc, s)
    ensures i <= |s| && P.ExponentialRest(s, i, acc) == P.Match(SquaredTimes(acc, r), |s|)
    decreases r
  {
    if r == 0 {
      assert |s[i..]| == 0;
      LemmaSquaredEnd(s, i, acc);
    } else {
      var k, next := LemmaSquaredStep(s, i, acc, r);
      LemmaSquaredLoop(s, k, next, r - 1);
      LemmaSquaredRest(s, i, acc, r);
    }
  }

  /** At the end of the text the exponential loop stops with what it has read. */
  lemma LemmaSquaredEnd(s: string, i: nat, acc: Expr)
    requires i == |s| && P.ExprNamesFrom(acc, s)
    ensures P.ExponentialRest(s, i, acc) == P.Match(acc, |s|)
  {
    LemmaNoOperatorAtEnd(s);
    LemmaRestsStop(s, i, acc);
  }

  /** Where the exponential loop goes on after one word "squared": the next word, with `acc` squared. */
  lemma LemmaSquaredStep(s: string, i: nat, acc: Expr, r: nat) returns (k: nat, next: Expr)
    requires r > 0 && WordsFrom(s, i, r) && P.ExprNamesFrom(acc, s)
    ensures k == NextWord(s, i, r) && next == Bin(Exponentiation, acc, Const(2.0))
    ensures SquaredTimes(next, r - 1) == SquaredTimes(acc, r)
    ensures WordsFrom(s, k, r - 1) && P.ExprNamesFrom(next, s)
  {
    k := NextWord(s, i, r);
    next := Bin(Exponentiation, acc, Const(2.0));
    LemmaWordsFrom(s, i, r);
    LemmaSquaredWord(s, i, k, r);
    LemmaWordsFrom(s, k, r - 1);
  }

  /** One word "squared" read in the exponential loop: the loop goes on after it with `acc` squared. */
  lemma LemmaSquaredRest(s: string, i: nat, acc: Expr, r: nat)
    requires r > 0 && WordsFrom(s, i, r) && P.ExprNamesFrom(acc, s)
    ensures i <= |s| && NextWord(s, i, r) <= |s| && P.ExprNamesFrom(Bin(Exponentiation, acc, Const(2.0)), s)
    ensures P.ExponentialRest(s, i, acc) == P.ExponentialRest(s, NextWord(s, i, r), Bin(Exponentiation, acc, Const(2.0)))
  {
    LemmaWordsFrom(s, i, r);
    LemmaSquaredWord(s, i, NextWord(s, i, r), r);
    LemmaSquaredMore(s, i, acc, NextWord(s, i, r));
  }

  /** The word "squared" at `i` is read with the space after it, and "to the power of" is not there. */
  lemma LemmaSquaredWord(s: string, i: nat, k: nat, r: nat)
    requires r > 0 && WordsAt(s, i, r) && k == NextWord(s, i, r)
    ensures i <= |s| && P.KeyPhrase(s, i, P.PowerOf) == None && P.KeyPhrase(s, i, P.Squared) == Some(k)
    ensures WordsAt(s, k, r - 1)
  {
    var rest := SquaredTail(r - 1);
    LemmaAtConcat(s, i, "squared", rest);
    LemmaMiss(s, i, "squared", P.PowerOf);
    assert Phrase(P.Squared) == "squared";
    LemmaKeyPhraseAt(s, i, P.Squared);
    if r == 1 {
      LemmaNoSpace(s, i + 7);
    } else {
      var more := SquaredTail(r - 2);
      assert rest == " " + ("squared" + more);
      LemmaAtConcat(s, i + 7, " ", "squared" + more);
      LemmaAtIndex(s, i + 7, " ", 0);
      LemmaAtIndex(s, i + 8, "squared" + more, 0);
      LemmaOneSpace(s, i + 7);
    }
  }

  /** After an operand followed by " squared" `n` times, the words start one space on. */
  lemma LemmaTailWords(s: string, j: nat, n: nat)
    requires TailAt(s, j, n)
    ensures j <= |s| && WordsAt(s, P.OptionalSpace(s, j), n)
  {
    if n == 0 {
      LemmaNoSpace(s, j);
    } else {
      var rest := SquaredTail(n - 1);
      assert SquaredTail(n) == " " + ("squared" + rest);
      LemmaAtConcat(s, j, " ", "squared" + rest);
      LemmaAtIndex(s, j, " ", 0);
      LemmaAtIndex(s, j + 1, "squared" + rest, 0);
      LemmaOneSpace(s, j);
    }
  }

  // ------------------------------------------------ canonical texts are already normalised

  /** Text already normalised, read as one whole expression, is what `parseExpression` returns. */
  lemma LemmaParseWhole(s: string, e: Expr)
    requires P.Normal(s) && P.Expression(s, 0) == Some(P.Match(e, |s|))
    ensures P.ParseExpression(s) == Some(e)
  {
    P.LemmaNormalizeFixes(s);
  }

  lemma LemmaSpacedNormal(l: string, w: string, r: string)
    requires P.Normal(l) && P.Normal(w) && P.Normal(r)
    ensures P.Normal(l + " " + w + " " + r)
  {
    LemmaNormalConcat(l, " ");
    LemmaNormalConcat(l + " ", w);
    LemmaNormalConcat(l + " " + w, " ");
    LemmaNormalConcat(l + " " + w + " ", r);
  }

  lemma LemmaTwoNormal(l: Expr, op: BinOp, r: Expr)
    requires Printable(l) && Printable(r)
    ensures P.Normal(Two(l, op, r))
  {
    LemmaShowNormal(l);
    LemmaShowNormal(r);
    LemmaOpTextNormal(op);
    LemmaSpacedNormal(Show(l), OpText(op), Show(r));
  }

  lemma LemmaThreeNormal(a: Expr, o1: BinOp, b: Expr, o2: BinOp, c: Expr)
    requires Printable(a) && Printable(b) && Printable(c)
    ensures P.Normal(Three(a, o1, b, o2, c))
  {
    LemmaShowNormal(a);
    LemmaOpTextNormal(o1);
    LemmaTwoNormal(b, o2, c);
    LemmaSpacedNormal(Show(a), OpText(o1), Two(b, o2, c));
  }

  lemma {:induction false} LemmaTailNormal(n: nat)
    ensures P.Normal(SquaredTail(n))
  {
    if n > 0 {
      LemmaTailNormal(n - 1);
      LemmaNormalConcat(" squared", SquaredTail(n - 1));
    }
  }

  // ------------------------------------------------ the cases of `testPrecedence`

  /** A one-digit whole number is written as its digit. */
  lemma LemmaDigitText(n: nat)
    requires n < 10
    ensures Printable(Const(n as real)) && Show(Const(n as real)) == [Text.DigitChar(n)]
  {
    assert (n as real).Floor == n;
  }

  lemma LemmaMinusThenPlus()
    ensures P.ParseExpression("1 minus 2 plus 3")
      == Some(Bin(Addition, Bin(Subtraction, Const(1.0), Const(2.0)), Const(3.0)))
  {
    LemmaDigitText(1);
    LemmaDigitText(2);
    LemmaDigitText(3);
    assert Three(Const(1.0), Subtraction, Const(2.0), Addition, Const(3.0)) == "1 minus 2 plus 3";
    LemmaThreeOperands(Const(1.0), Subtraction, Const(2.0), Addition, Const(3.0));
  }

  lemma LemmaMinusThenDividedBy()
    ensures P.ParseExpression("1 minus 2 divided by 3")
      == Some(Bin(Subtraction, Const(1.0), Bin(Division, Const(2.0), Const(3.0))))
  {
    LemmaMinusDividedText();
    LemmaThreeOperands(Const(1.0), Subtraction, Const(2.0), Division, Const(3.0));
  }

  lemma LemmaMinusDividedText()
    ensures Printable(Const(1.0)) && Printable(Const(2.0)) && Printable(Const(3.0))
    ensures Three(Const(1.0), Subtraction, Const(2.0), Division, Const(3.0)) == "1 minus 2 divided by 3"
  {
    LemmaDigitText(1);
    LemmaDigitText(2);
    LemmaDigitText(3);
    assert Two(Const(2.0), Division, Const(3.0)) == "2 divided by 3";
    assert Three(Const(1.0), Subtraction, Const(2.0), Division, Const(3.0)) == "1 minus " + "2 divided by 3";
  }

  lemma LemmaParenthesesFirst()
    ensures P.ParseExpression("(1 minus 2) divided by 3")
      == Some(Bin(Division, Bin(Subtraction, Const(1.0), Const(2.0)), Const(3.0)))
  {
    LemmaDigitText(1);
    LemmaDigitText(2);
    LemmaDigitText(3);
    var d := Bin(Subtraction, Const(1.0), Const(2.0));
    assert Show(d) == "(1 minus 2)";
    assert Two(d, Division, Const(3.0)) == "(1 minus 2) divided by 3";
    LemmaTwoOperands(d, Division, Const(3.0));
  }

  lemma LemmaPowersGroupRight()
    ensures P.ParseExpression("x to the power of " + "y to the power of z")
      == Some(Bin(Exponentiation, Var("x"), Bin(Exponentiation, Var("y"), Var("z"))))
  {
    var t := Two(Var("y"), Exponentiation, Var("z"));
    assert t == "y to the power of z";
    var h := Show(Var("x")) + " " + OpText(Exponentiation) + " ";
    assert h == "x to the power of ";
    assert Three(Var("x"), Exponentiation, Var("y"), Exponentiation, Var("z")) == h + t;
    LemmaThreeOperands(Var("x"), Exponentiation, Var("y"), Exponentiation, Var("z"));
  }

  lemma LemmaSquaredSquared()
    ensures P.ParseExpression("x squared squared")
      == Some(Bin(Exponentiation, Bin(Exponentiation, Var("x"), Const(2.0)), Const(2.0)))
  {
    assert Show(Var("x")) + SquaredTail(2) == "x squared squared";
    LemmaSquared(Var("x"), 2);
  }

  lemma LemmaExponentSquared()
    ensures P.ParseExpression("y to the power of z squared")
      == Some(Bin(Exponentiation, Var("y"), Bin(Exponentiation, Var("z"), Const(2.0))))
  {
    var t := Two(Var("y"), Exponentiation, Var("z"));
    assert t == "y to the power of z";
    assert SquaredTail(1) == " squared";
    assert t + " squared" == "y to the power of z squared";
    LemmaPowerOfSquared(Var("y"), Var("z"), 1);
  }
}
