/**
 * Canonical Wordy text for an AST: the partner of the parser. Every binary expression is written
 * in parentheses with its operator's key phrase, every conditional in the block form, and every
 * statement of a block is followed by ". ". Reading that text back gives the AST it was written
 * from.
 *
 * Constants are written as whole numbers and names in lower case: a constant with a fraction
 * would need Java's shortest round-tripping decimal, and `parse` lower-cases names.
 */
module Wording {
  import opened Wrappers
  import opened Ast
  import Text
  import P = Parser
  import opened Reading

  /** The key phrase of each operator, as the grammar spells it. */
  function OpWords(op: BinOp): (words: seq<string>)
    ensures words != [] && forall k :: 0 <= k < |words| ==> Word(words[k])
  {
    match op
    case Addition => P.Plus
    case Subtraction => P.Minus
    case Multiplication => P.Times
    case Division => P.DividedBy
    case Exponentiation => P.PowerOf
  }

  /** The first spelling the grammar tries for each comparison. */
  function CmpWords(op: CmpOp): (words: seq<string>)
    ensures words != [] && forall k :: 0 <= k < |words| ==> Word(words[k])
  {
    match op
    case EqualTo => P.Equals
    case LessThan => P.IsLessThan
    case GreaterThan => P.IsGreaterThan
  }

  /** The key phrase of each operator as one text, its words joined by single spaces. */
  function OpText(op: BinOp): string
  {
    match op
    case Addition => "plus"
    case Subtraction => "minus"
    case Multiplication => "times"
    case Division => "divided by"
    case Exponentiation => "to the power of"
  }

  lemma LemmaOpText(op: BinOp)
    ensures Phrase(OpWords(op)) == OpText(op)
  {
    match op
    case Division =>
      assert Phrase(["by"]) == "by";
    case Exponentiation =>
      assert Phrase(["of"]) == "of";
      assert Phrase(["power", "of"]) == "power of";
      assert Phrase(["the", "power", "of"]) == "the power of";
    case _ =>
  }

  /** Expressions canonical text can write: whole-number constants and lower-case names. */
  predicate Printable(e: Expr)
  {
    match e
    case Const(v) => v == v.Floor as real
    case Var(x) => LowerName(x)
    case Bin(_, l, r) => Printable(l) && Printable(r)
  }

  /** The digits of a whole number's magnitude. */
  function Magnitude(v: real): (digits: string)
    requires v == v.Floor as real
    ensures digits != [] && Text.AllDigits(digits)
    ensures P.NumberValue(v < 0.0, digits, "") == v
  {
    var n: nat := if v < 0.0 then -v.Floor else v.Floor;
    Text.NatToString(n)
  }

  function ConstText(v: real): string
    requires v == v.Floor as real
  {
    Numeral(v < 0.0, Magnitude(v), "")
  }

  function Show(e: Expr): (t: string)
    requires Printable(e)
  {
    match e
    case Const(v) => ConstText(v)
    case Var(x) => x
    case Bin(op, l, r) => "(" + Show(l) + " " + OpText(op) + " " + Show(r) + ")"
  }

  /** Canonical text starts with neither a space nor a closing parenthesis. */
  lemma LemmaShowStart(e: Expr)
    requires Printable(e)
    ensures Show(e) != [] && Show(e)[0] != ' ' && Show(e)[0] != ')'
  {
    match e
    case Const(v) =>
      var d := Magnitude(v);
      assert Show(e) == (if v < 0.0 then "-" else "") + d;
      assert Text.IsDigit(d[0]);
    case Var(x) =>
    case Bin(_, _, _) =>
  }

  /** Where an operand's text ends: no digit, name character or '.' followed by a digit after it. */
  predicate Ends(s: string, j: nat)
  {
    NumberEnds(s, j) && NameEnds(s, j)
  }

  lemma LemmaConstAt(v: real, s: string, i: nat)
    requires v == v.Floor as real
    requires P.At(s, i, ConstText(v)) && Ends(s, i + |ConstText(v)|)
    ensures P.Atom(s, i) == Some(P.Match(Const(v), P.OptionalSpace(s, i + |ConstText(v)|)))
  {
    LemmaNumberAt(s, i, v < 0.0, Magnitude(v), "");
  }

  /** The canonical text of an expression, standing where an operand is read, reads back as that expression. */
  lemma {:induction false} LemmaReadShow(e: Expr, s: string, i: nat)
    requires Printable(e) && P.At(s, i, Show(e)) && Ends(s, i + |Show(e)|)
    ensures P.Atom(s, i) == Some(P.Match(e, P.OptionalSpace(s, i + |Show(e)|)))
    decreases ExprSize(e), 2
  {
    if e.Bin? {
      LemmaReadBin(e, s, i);
    } else {
      LemmaLeafShowAt(e, s, i);
    }
  }

  /** A number or a variable, in canonical text where an operand is read. */
  lemma LemmaLeafShowAt(e: Expr, s: string, i: nat)
    requires !e.Bin? && Printable(e) && P.At(s, i, Show(e)) && Ends(s, i + |Show(e)|)
    ensures P.Atom(s, i) == Some(P.Match(e, P.OptionalSpace(s, i + |Show(e)|)))
  {
    match e
    case Const(v) => LemmaConstAt(v, s, i);
    case Var(x) => LemmaVariableAt(s, i, x);
  }

  /** Where the parts of "(l op r)" stand. */
  lemma LemmaBinLayout(s: string, i: nat, l: string, w: string, r: string)
    requires P.At(s, i, "(" + l + " " + w + " " + r + ")")
    ensures s[i] == '(' && P.At(s, i + 1, l) && s[i + 1 + |l|] == ' '
    ensures P.At(s, i + 2 + |l|, w) && s[i + 2 + |l| + |w|] == ' '
    ensures P.At(s, i + 3 + |l| + |w|, r) && s[i + 3 + |l| + |w| + |r|] == ')'
    ensures |"(" + l + " " + w + " " + r + ")"| == 4 + |l| + |w| + |r|
  {
    assert "(" + l + " " + w + " " + r + ")" == "(" + (l + " " + w + " " + r) + ")";
    LemmaAtConcat(s, i, "(" + (l + " " + w + " " + r), ")");
    LemmaAtConcat(s, i, "(", l + " " + w + " " + r);
    LemmaAtIndex(s, i, "(", 0);
    LemmaAtIndex(s, i + 3 + |l| + |w| + |r|, ")", 0);
    LemmaInsideLayout(s, i + 1, l, w, r);
  }

  /** Where the parts of "l op r" stand. */
  lemma LemmaInsideLayout(s: string, a: nat, l: string, w: string, r: string)
    requires P.At(s, a, l + " " + w + " " + r)
    ensures P.At(s, a, l) && s[a + |l|] == ' '
    ensures P.At(s, a + 1 + |l|, w) && s[a + 1 + |l| + |w|] == ' '
    ensures P.At(s, a + 2 + |l| + |w|, r)
  {
    LemmaAtConcat(s, a, l + " " + w + " ", r);
    LemmaAtConcat(s, a, l + " " + w, " ");
    LemmaAtConcat(s, a, l + " ", w);
    LemmaAtConcat(s, a, l, " ");
    LemmaAtIndex(s, a + |l|, " ", 0);
    LemmaAtIndex(s, a + 1 + |l| + |w|, " ", 0);
  }

  lemma {:induction false} LemmaReadBin(e: Expr, s: string, i: nat)
    requires e.Bin? && Printable(e) && P.At(s, i, Show(e))
    ensures P.Atom(s, i) == Some(P.Match(e, P.OptionalSpace(s, i + |Show(e)|)))
    decreases ExprSize(e), 1
  {
    var b, q, c := LemmaBinPlaces(e.op, e.lhs, e.rhs, s, i);
    LemmaReadInside(e.op, e.lhs, e.rhs, s, i + 1, b, q, c);
    LemmaParensAt(s, i, e, c);
  }

  /** Where the operands and the operator of "(l op r)" stand, and what closes it. */
  lemma LemmaBinPlaces(op: BinOp, l: Expr, r: Expr, s: string, i: nat) returns (b: nat, q: nat, c: nat)
    requires Printable(l) && Printable(r) && P.At(s, i, Show(Bin(op, l, r)))
    ensures b == i + 1 + |Show(l)| + 1 && q == b + |OpText(op)| + 1 && c == q + |Show(r)| && c < |s|
    ensures c + 1 == i + |Show(Bin(op, l, r))|
    ensures i + 1 < |s| && s[i] == '(' && s[i + 1] != ' '
    ensures P.At(s, i + 1, Show(l)) && s[b - 1] == ' '
    ensures P.At(s, b, OpText(op)) && s[q - 1] == ' '
    ensures P.At(s, q, Show(r)) && s[c] == ')'
  {
    var left, w, right := Show(l), OpText(op), Show(r);
    assert Show(Bin(op, l, r)) == "(" + left + " " + w + " " + right + ")";
    LemmaBinLayout(s, i, left, w, right);
    LemmaShowStart(l);
    LemmaAtIndex(s, i + 1, left, 0);
    b := i + 2 + |left|;
    q := b + |w| + 1;
    c := q + |right|;
  }

  /** The text between the parentheses of "(l op r)" reads as an expression. */
  lemma {:induction false} LemmaReadInside(op: BinOp, l: Expr, r: Expr, s: string, a: nat, b: nat, q: nat, c: nat)
    requires Printable(l) && Printable(r)
    requires b == a + |Show(l)| + 1 && q == b + |OpText(op)| + 1 && c == q + |Show(r)| && c < |s|
    requires P.At(s, a, Show(l)) && s[b - 1] == ' '
    requires P.At(s, b, OpText(op)) && s[q - 1] == ' '
    requires P.At(s, q, Show(r)) && s[c] == ')'
    ensures P.Expression(s, a) == Some(P.Match(Bin(op, l, r), c))
    decreases ExprSize(Bin(op, l, r)), 0
  {
    LemmaShowStart(r);
    LemmaAtIndex(s, q, Show(r), 0);
    LemmaOpAt(op, s, b);
    LemmaReadOperand(l, s, a, b - 1);
    LemmaReadOperand(r, s, q, c);
    LemmaNoOperatorAtChar(s, c);
    LemmaReadMiddle(op, l, r, s, a, b, q, c);
  }

  /** An operand's canonical text followed by one space before a word, or by ")". */
  lemma {:induction false} LemmaReadOperand(e: Expr, s: string, i: nat, j: nat)
    requires Printable(e) && P.At(s, i, Show(e)) && j == i + |Show(e)| && j < |s|
    requires s[j] == ')' || (s[j] == ' ' && j + 1 < |s| && s[j + 1] != ' ')
    ensures P.Atom(s, i) == Some(P.Match(e, if s[j] == ' ' then j + 1 else j))
    decreases ExprSize(e), 3
  {
    LemmaReadShow(e, s, i);
    if s[j] == ' ' {
      LemmaOneSpace(s, j);
    } else {
      LemmaNoSpace(s, j);
    }
  }

  /** An operator's key phrase followed by one space reads up to the next word. */
  lemma LemmaOpAt(op: BinOp, s: string, b: nat)
    requires P.At(s, b, OpText(op)) && b + |OpText(op)| + 1 < |s|
    requires s[b + |OpText(op)|] == ' ' && s[b + |OpText(op)| + 1] != ' '
    ensures P.KeyPhrase(s, b, OpWords(op)) == Some(b + |OpText(op)| + 1) && s[b] != ' '
  {
    var w := OpText(op);
    LemmaAtIndex(s, b, w, 0);
    LemmaOneSpace(s, b + |w|);
    match op
    case Addition => LemmaKeyPhraseAt(s, b, P.Plus);
    case Subtraction => LemmaKeyPhraseAt(s, b, P.Minus);
    case Multiplication => LemmaKeyPhraseAt(s, b, P.Times);
    case Division => LemmaOpText(op); LemmaKeyPhraseAt(s, b, P.DividedBy);
    case Exponentiation => LemmaOpText(op); LemmaKeyPhraseAt(s, b, P.PowerOf);
  }

  /** An expression between "(" and ")" reads as a parenthesised atom. */
  lemma LemmaParensAt(s: string, i: nat, e: Expr, c: nat)
    requires i + 1 < |s| && s[i] == '(' && s[i + 1] != ' '
    requires P.Expression(s, i + 1) == Some(P.Match(e, c)) && c < |s| && s[c] == ')'
    ensures P.Atom(s, i) == Some(P.Match(e, P.OptionalSpace(s, c + 1)))
  {
    LemmaNoSpace(s, i);
    LemmaNoSpace(s, i + 1);
    LemmaNoSpace(s, c);
    assert P.Surrounded(s, i, '(') == Some(i + 1);
    assert P.Parens(s, i) == Some(P.Match(e, P.OptionalSpace(s, c + 1)));
    LemmaRunEndAt(s, i, i, Text.IsDigit);
    assert P.Number(s, i) == None;
  }

  /** The operator between two operands joins them, whatever its precedence, when nothing follows the right one. */
  lemma LemmaReadMiddle(op: BinOp, l: Expr, r: Expr, s: string, a: nat, b: nat, q: nat, c: nat)
    requires a <= |s| && P.Atom(s, a) == Some(P.Match(l, b))
    requires P.At(s, b, OpText(op)) && P.KeyPhrase(s, b, OpWords(op)) == Some(q)
    requires q <= |s| && P.Atom(s, q) == Some(P.Match(r, c)) && NoOperatorAt(s, c)
    ensures P.Expression(s, a) == Some(P.Match(Bin(op, l, r), c))
  {
    LemmaOperand(s, q, r, c);
    LemmaJoinRight(op, l, r, s, a, b, q, c);
  }

  /**
   * An operator after an atom takes as its right operand a whole exponential expression, and
   * when nothing follows that the two are the whole expression.
   */
  lemma LemmaJoinRight(op: BinOp, l: Expr, r: Expr, s: string, a: nat, b: nat, q: nat, c: nat)
    requires a <= |s| && P.Atom(s, a) == Some(P.Match(l, b))
    requires P.At(s, b, OpText(op)) && P.KeyPhrase(s, b, OpWords(op)) == Some(q)
    requires q <= |s| && P.Exponential(s, q) == Some(P.Match(r, c)) && NoOperatorAt(s, c)
    ensures P.Expression(s, a) == Some(P.Match(Bin(op, l, r), c))
  {
    match op
    case Exponentiation =>
      LemmaPowerStep(s, b, l, q, r, c);
      LemmaFactor(s, a, Bin(op, l, r), c);
    case Multiplication => LemmaReadProduct(op, l, r, s, a, b, q, c);
    case Division => LemmaReadProduct(op, l, r, s, a, b, q, c);
    case Addition =>
      LemmaFactor(s, q, r, c);
      LemmaReadSum(op, l, r, s, a, b, q, c);
    case Subtraction =>
      LemmaFactor(s, q, r, c);
      LemmaReadSum(op, l, r, s, a, b, q, c);
  }

  lemma LemmaReadProduct(op: BinOp, l: Expr, r: Expr, s: string, a: nat, b: nat, q: nat, c: nat)
    requires op == Multiplication || op == Division
    requires a <= |s| && P.Atom(s, a) == Some(P.Match(l, b))
    requires P.At(s, b, OpText(op)) && P.KeyPhrase(s, b, OpWords(op)) == Some(q)
    requires q <= |s| && P.Exponential(s, q) == Some(P.Match(r, c)) && NoOperatorAt(s, c)
    ensures P.Expression(s, a) == Some(P.Match(Bin(op, l, r), c))
  {
    LemmaBeforeProduct(op, s, a, l, b);
    LemmaProductOp(op, s, b, q);
    LemmaMultiplicativeStep(s, b, l, op, q, r, c);
    assert P.Multiplicative(s, a) == Some(P.Match(Bin(op, l, r), c));
    LemmaTerm(s, a, Bin(op, l, r), c);
  }

  lemma LemmaReadSum(op: BinOp, l: Expr, r: Expr, s: string, a: nat, b: nat, q: nat, c: nat)
    requires op == Addition || op == Subtraction
    requires a <= |s| && P.Atom(s, a) == Some(P.Match(l, b))
    requires P.At(s, b, OpText(op)) && P.KeyPhrase(s, b, OpWords(op)) == Some(q)
    requires q <= |s| && P.Multiplicative(s, q) == Some(P.Match(r, c)) && NoOperatorAt(s, c)
    ensures P.Expression(s, a) == Some(P.Match(Bin(op, l, r), c))
  {
    LemmaBeforeSum(op, s, a, l, b);
    LemmaSumOp(op, s, b, q);
    LemmaAdditiveStep(s, b, l, op, q, r, c);
  }

  /** A multiplicative or additive operator's words end an exponential operand. */
  lemma LemmaNoPowerAt(op: BinOp, s: string, b: nat, acc: Expr)
    requires op != Exponentiation && b <= |s| && P.At(s, b, OpText(op)) && P.ExprNamesFrom(acc, s)
    ensures P.ExponentialRest(s, b, acc) == P.Match(acc, b)
  {
    var w := OpText(op);
    LemmaMiss(s, b, w, P.PowerOf);
    LemmaMiss(s, b, w, P.Squared);
    LemmaExponentialStops(s, b, acc);
  }

  /** An additive operator's word ends a multiplicative operand. */
  lemma LemmaNoProductAt(op: BinOp, s: string, b: nat, acc: Expr)
    requires (op == Addition || op == Subtraction) && b <= |s| && P.At(s, b, OpText(op)) && P.ExprNamesFrom(acc, s)
    ensures P.MultiplicativeRest(s, b, acc) == P.Match(acc, b)
  {
    var w := OpText(op);
    LemmaMiss(s, b, w, P.Times);
    LemmaMiss(s, b, w, P.DividedBy);
    LemmaMultiplicativeStops(s, b, acc);
  }

  /** Where the parts of "l w r" stand, their positions named. */
  lemma LemmaInsidePlaces(s: string, a: nat, l: string, w: string, r: string, b: nat, q: nat)
    requires P.At(s, a, l + " " + w + " " + r) && b == a + |l| + 1 && q == b + |w| + 1
    ensures P.At(s, a, l) && s[b - 1] == ' ' && P.At(s, b, w) && s[q - 1] == ' ' && P.At(s, q, r)
    ensures q + |r| == a + |l + " " + w + " " + r|
  {
    LemmaInsideLayout(s, a, l, w, r);
  }

  /** An atom followed by "times" or "divided by" is a whole exponential operand. */
  lemma LemmaBeforeProduct(op: BinOp, s: string, a: nat, l: Expr, b: nat)
    requires op == Multiplication || op == Division
    requires a <= |s| && P.Atom(s, a) == Some(P.Match(l, b)) && P.At(s, b, OpText(op))
    ensures P.Exponential(s, a) == Some(P.Match(l, b))
  {
    LemmaNoPowerAt(op, s, b, l);
  }

  /** An atom followed by "plus" or "minus" is a whole multiplicative operand. */
  lemma LemmaBeforeSum(op: BinOp, s: string, a: nat, l: Expr, b: nat)
    requires op == Addition || op == Subtraction
    requires a <= |s| && P.Atom(s, a) == Some(P.Match(l, b)) && P.At(s, b, OpText(op))
    ensures P.Exponential(s, a) == Some(P.Match(l, b)) && P.Multiplicative(s, a) == Some(P.Match(l, b))
  {
    LemmaNoPowerAt(op, s, b, l);
    LemmaNoProductAt(op, s, b, l);
  }

  /** "times" and "divided by" are read as their operators. */
  lemma LemmaProductOp(op: BinOp, s: string, b: nat, q: nat)
    requires op == Multiplication || op == Division
    requires b <= |s| && P.At(s, b, OpText(op)) && P.KeyPhrase(s, b, OpWords(op)) == Some(q)
    ensures P.MultiplicativeOp(s, b) == Some((op, q))
  {
    if op == Division {
      LemmaMiss(s, b, "divided by", P.Times);
    }
  }

  /** "plus" and "minus" are read as their operators. */
  lemma LemmaSumOp(op: BinOp, s: string, b: nat, q: nat)
    requires op == Addition || op == Subtraction
    requires b <= |s| && P.At(s, b, OpText(op)) && P.KeyPhrase(s, b, OpWords(op)) == Some(q)
    ensures P.AdditiveOp(s, b) == Some((op, q))
  {
    if op == Subtraction {
      LemmaMiss(s, b, "minus", P.Plus);
    }
  }

  // ------------------------------------------------ whole expressions

  lemma LemmaNormalConcat(a: string, b: string)
    requires P.Normal(a) && P.Normal(b)
    ensures P.Normal(a + b)
  {
    assert forall k :: 0 <= k < |a + b| ==> (a + b)[k] == if k < |a| then a[k] else b[k - |a|];
  }

  /** Canonical text is already normalised: `parse` leaves it unchanged. */
  lemma {:induction false} LemmaShowNormal(e: Expr)
    requires Printable(e)
    ensures P.Normal(Show(e))
  {
    match e
    case Const(v) => LemmaConstNormal(v);
    case Var(x) =>
    case Bin(op, l, r) =>
      LemmaShowNormal(l);
      LemmaShowNormal(r);
      LemmaOpTextNormal(op);
      LemmaNormalBin(Show(l), OpText(op), Show(r));
  }

  lemma LemmaConstNormal(v: real)
    requires v == v.Floor as real
    ensures P.Normal(ConstText(v))
  {
    var d := Magnitude(v);
    assert P.Normal(d);
    LemmaNormalConcat(if v < 0.0 then "-" else "", d);
    assert ConstText(v) == (if v < 0.0 then "-" else "") + d;
  }

  lemma LemmaOpTextNormal(op: BinOp)
    ensures P.Normal(OpText(op))
  {
    match op
    case Addition =>
    case Subtraction =>
    case Multiplication =>
    case Division =>
    case Exponentiation =>
  }

  lemma LemmaNormalBin(l: string, w: string, r: string)
    requires P.Normal(l) && P.Normal(w) && P.Normal(r)
    ensures P.Normal("(" + l + " " + w + " " + r + ")")
  {
    LemmaNormalConcat("(", l);
    LemmaNormalConcat("(" + l, " ");
    LemmaNormalConcat("(" + l + " ", w);
    LemmaNormalConcat("(" + l + " " + w, " ");
    LemmaNormalConcat("(" + l + " " + w + " ", r);
    LemmaNormalConcat("(" + l + " " + w + " " + r, ")");
  }

  /** `parseExpression` reads the canonical text of an expression back as that expression. */
  lemma LemmaShowExpression(e: Expr)
    requires Printable(e)
    ensures P.ParseExpression(Show(e)) == Some(e)
  {
    var s := Show(e);
    LemmaShowNormal(e);
    P.LemmaNormalizeFixes(s);
    LemmaExpressionWhole(e);
  }

  lemma LemmaExpressionWhole(e: Expr)
    requires Printable(e)
    ensures P.Expression(Show(e), 0) == Some(P.Match(e, |Show(e)|))
  {
    var s := Show(e);
    assert P.At(s, 0, s);
    LemmaReadShow(e, s, 0);
    LemmaWholeAtom(s, e);
  }

  /** An atom spanning the whole text is the whole expression. */
  lemma LemmaWholeAtom(s: string, e: Expr)
    requires P.Atom(s, 0) == Some(P.Match(e, P.OptionalSpace(s, |s|)))
    ensures P.Expression(s, 0) == Some(P.Match(e, |s|))
  {
    LemmaNoSpace(s, |s|);
    LemmaNoOperatorAtEnd(s);
    LemmaOperand(s, 0, e, |s|);
  }
}
