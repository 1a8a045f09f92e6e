/**
 * The three entry points of `WordyParser` (`parseProgram`, `parseStatement`, `parseExpression`):
 * what a successful parse guarantees about its result, which inputs are rejected, and how
 * numbers and the alternative comparison spellings are read.
 */
module Entry {
  import opened Wrappers
  import opened Ast
  import P = Parser
  import opened Reading
  import Variables
  import Text
  import Wording
  import Sentences
  import opened Names

  // ------------------------------------------------ what a successful parse yields

  /**
   * A program parse succeeds only when the `Block` after the leading spaces reaches the end of
   * the normalised input `s`; it then yields one block of at least one statement, and every
   * variable of that block has a lower-case name.
   */
  lemma LemmaProgramResult(input: string, s: string, p: Stmt)
    requires s == P.Normalize(input) && P.ParseProgram(input) == Some(p)
    ensures var m := P.Block(s, P.OptionalSpace(s, 0)); m.Some? && m.value.node == p && m.value.end == |input|
    ensures p.Block? && p.stmts != [] && LowerNames(S(p))
  {
    LemmaStmtLowerNames(p, s);
  }

  /** A `Block` spanning the normalised input after its leading spaces is the program parsed. */
  lemma LemmaProgramWhole(input: string, s: string, m: P.Match<Stmt>)
    requires s == P.Normalize(input) && P.Block(s, P.OptionalSpace(s, 0)) == Some(m) && m.end == |input|
    ensures P.ParseProgram(input) == Some(m.node)
  {
  }

  /** A statement parse succeeds only when `Statement` spans the normalised input; its names are lower-case. */
  lemma LemmaStatementResult(input: string, s: string, st: Stmt)
    requires s == P.Normalize(input) && P.ParseStatement(input) == Some(st)
    ensures var m := P.Statement(s, 0); m.Some? && m.value.node == st && m.value.end == |input|
    ensures LowerNames(S(st))
  {
    LemmaStmtLowerNames(st, s);
  }

  lemma LemmaStatementWhole(input: string, s: string, m: P.Match<Stmt>)
    requires s == P.Normalize(input) && P.Statement(s, 0) == Some(m) && m.end == |input|
    ensures P.ParseStatement(input) == Some(m.node)
  {
  }

  /** An expression parse succeeds only when `Expression` spans the normalised input; its names are lower-case. */
  lemma LemmaExpressionResult(input: string, s: string, e: Expr)
    requires s == P.Normalize(input) && P.ParseExpression(input) == Some(e)
    ensures var m := P.Expression(s, 0); m.Some? && m.value.node == e && m.value.end == |input|
    ensures LowerNames(E(e))
  {
    LemmaExprLowerNames(e, s);
  }

  lemma LemmaExpressionWhole(input: string, s: string, m: P.Match<Expr>)
    requires s == P.Normalize(input) && P.Expression(s, 0) == Some(m) && m.end == |input|
    ensures P.ParseExpression(input) == Some(m.node)
  {
  }

  // ------------------------------------------------ blank input

  /** Input of whitespace only normalises to spaces only. */
  lemma LemmaBlankNormal(input: string)
    requires forall k :: 0 <= k < |input| ==> P.JavaSpace(input[k])
    ensures var s := P.Normalize(input); forall k :: 0 <= k < |s| ==> s[k] == ' '
  {
  }

  /** Empty or blank input is neither a program, nor a statement, nor an expression. */
  lemma LemmaBlankRejected(input: string)
    requires forall k :: 0 <= k < |input| ==> P.JavaSpace(input[k])
    ensures P.ParseProgram(input) == None
    ensures P.ParseStatement(input) == None
    ensures P.ParseExpression(input) == None
  {
    var s := P.Normalize(input);
    LemmaBlankNormal(input);
    LemmaRunEndAt(s, 0, |s|, P.IsBlank);
    assert P.Statement(s, |s|) == None;
    if s != [] {
      LemmaCharMiss(s, 0, P.SetWord, 0);
      LemmaCharMiss(s, 0, P.IfWord, 0);
      LemmaCharMiss(s, 0, P.LoopWord, 0);
      LemmaCharMiss(s, 0, P.ExitLoop, 0);
      assert P.Statement(s, 0) == None;
      assert P.Surrounded(s, 0, '(') == None;
      assert P.Atom(s, 0) == None;
    }
    assert P.Exponential(s, 0) == None;
    assert P.Multiplicative(s, 0) == None;
    assert P.Expression(s, 0) == None;
  }

  lemma LemmaEmptyProgramRejected()
    ensures P.ParseProgram("") == None
  {
    LemmaBlankRejected("");
  }

  // ------------------------------------------------ numbers

  /** Signs, digits and dots are left alone by normalisation. */
  lemma LemmaNumeralNormal(t: string)
    requires forall k :: 0 <= k < |t| ==> t[k] == '-' || t[k] == '.' || Text.IsDigit(t[k])
    ensures P.Normalize(t) == t
  {
    P.LemmaNormalizeFixes(t);
  }

  /**
   * The text of a number, `['-'] digits ['.' digits]`, is read as the constant of exactly that
   * decimal value.
   */
  lemma LemmaNumberRead(negative: bool, whole: string, frac: string)
    requires whole != [] && Text.AllDigits(whole) && Text.AllDigits(frac)
    ensures P.ParseExpression(Numeral(negative, whole, frac)) == Some(Const(P.NumberValue(negative, whole, frac)))
  {
    var s := Numeral(negative, whole, frac);
    assert forall k :: 0 <= k < |s| ==> s[k] == '-' || s[k] == '.' || Text.IsDigit(s[k]);
    LemmaNumeralNormal(s);
    assert P.At(s, 0, s);
    LemmaNumberAt(s, 0, negative, whole, frac);
    Wording.LemmaWholeAtom(s, Const(P.NumberValue(negative, whole, frac)));
  }

  /**
   * A whole number followed by two dots is not an expression, whatever follows: the number ends
   * at the first dot, which no operator can follow.
   */
  lemma LemmaDoubleDotRejected(negative: bool, whole: string, rest: string)
    requires whole != [] && Text.AllDigits(whole)
    ensures P.ParseExpression(Numeral(negative, whole, "") + ".." + rest) == None
  {
    var n := Numeral(negative, whole, "");
    var t := n + ".." + rest;
    var s := P.Normalize(t);
    var j := |n|;
    assert forall k :: 0 <= k < j + 2 ==> t[k] == '-' || t[k] == '.' || Text.IsDigit(t[k]);
    assert forall k :: 0 <= k < j + 2 ==> s[k] == t[k];
    assert P.At(s, 0, n);
    assert s[j] == '.' && s[j + 1] == '.';
    LemmaNumberAt(s, 0, negative, whole, "");
    LemmaNoSpace(s, j);
    LemmaNoOperatorAtChar(s, j);
    LemmaOperand(s, 0, Const(P.NumberValue(negative, whole, "")), j);
  }

  /** The digits "37" and "2" and their values. */
  lemma LemmaDigits37()
    ensures Text.AllDigits("37") && Text.DigitsValue("37") == 37
    ensures Text.AllDigits("2") && Text.DigitsValue("2") == 2
  {
    assert "37"[..1] == "3";
    assert "3"[..0] == "";
    assert "2"[..0] == "";
  }

  /** The whole number of the parser's tests: "37" is read as 37. */
  lemma LemmaNumber37()
    ensures P.ParseExpression("37") == Some(Const(37.0))
  {
    LemmaDigits37();
    assert P.NumberValue(false, "37", "") == 37.0;
    LemmaNumberRead(false, "37", "");
    assert Numeral(false, "37", "") == "37";
  }

  /** The number with a fraction of the parser's tests: "37.2" is read as 37.2. */
  lemma LemmaNumber37Point2()
    ensures P.ParseExpression("37.2") == Some(Const(37.2))
  {
    LemmaDigits37();
    assert Text.Pow10(1) == 10;
    assert P.NumberValue(false, "37", "2") == 37.2;
    LemmaNumberRead(false, "37", "2");
    assert Numeral(false, "37", "2") == "37.2";
  }

  /** The negative number of the parser's tests: "-37.2" is read as -37.2. */
  lemma LemmaNegative37Point2()
    ensures P.ParseExpression("-37.2") == Some(Const(-37.2))
  {
    LemmaDigits37();
    assert Text.Pow10(1) == 10;
    assert P.NumberValue(true, "37", "2") == -37.2;
    LemmaNumberRead(true, "37", "2");
    assert Numeral(true, "37", "2") == "-37.2";
  }

  /** The malformed number of the parser's tests: "-37..2" is refused. */
  lemma LemmaDoubleDot37()
    ensures P.ParseExpression("-37..2") == None
  {
    LemmaDigits37();
    LemmaDoubleDotRejected(true, "37", "2");
    assert Numeral(true, "37", "") + ".." + "2" == "-37..2";
  }

  // ------------------------------------------------ comparison spellings

  lemma LemmaIsEqualToPhrase()
    ensures Phrase(P.IsEqualTo) == "is equal to"
  {
    assert Phrase(["equal", "to"]) == "equal to";
  }

  /** "is equal to", like "equals", is read as the equality comparison. */
  lemma {:induction false} LemmaIsEqualToAt(s: string, p: nat, q: nat)
    requires P.At(s, p, "is equal to") && q == p + 12 && q < |s| && s[q - 1] == ' ' && s[q] != ' '
    ensures P.Comparison(s, p) == Some((EqualTo, q))
  {
    LemmaMiss(s, p, "is equal to", P.Equals);
    LemmaIsEqualToPhrase();
    Sentences.LemmaPhraseSpaceAt(s, p, P.IsEqualTo, "is equal to", q);
  }

  // ------------------------------------------------ a conditional without else

  /**
   * A block-form conditional with no "else:" part is read with `BlockNode.EMPTY` as its
   * else-branch.
   */
  lemma LemmaMissingElse(op: CmpOp, l: Expr, r: Expr, ts: seq<Stmt>)
    requires Wording.Printable(l) && Wording.Printable(r) && ts != [] && Sentences.CanonicalItems(ts)
    ensures P.ParseStatement(Sentences.Condition(op, l, r) + " then: " + Sentences.ShowItems(ts) + "end of conditional")
      == Some(Cond(op, l, r, Block(ts), EmptyBlock))
  {
    var st := LemmaWithoutElseText(op, l, r, ts);
    Sentences.LemmaShowStatement(st);
  }

  /** The canonical text of a conditional with an empty else-branch has no "else:" part. */
  lemma LemmaWithoutElseText(op: CmpOp, l: Expr, r: Expr, ts: seq<Stmt>) returns (st: Stmt)
    requires Wording.Printable(l) && Wording.Printable(r) && ts != [] && Sentences.CanonicalItems(ts)
    ensures st == Cond(op, l, r, Block(ts), EmptyBlock) && Sentences.Canonical(st)
    ensures Sentences.ShowStmt(st) == Sentences.Condition(op, l, r) + " then: " + Sentences.ShowItems(ts) + "end of conditional"
  {
    st := Cond(op, l, r, Block(ts), Block([]));
    assert Sentences.CanonicalItems([]);
    var c := Sentences.Condition(op, l, r);
    var b := Sentences.ShowItems(ts);
    assert Sentences.ShowStmt(st) == c + " " + Sentences.BranchesText(ts, []);
    LemmaNoElseBranch(ts);
    LemmaThenText(c, b);
  }

  lemma LemmaNoElseBranch(ts: seq<Stmt>)
    requires Sentences.CanonicalItems(ts)
    ensures Sentences.CanonicalItems([])
    ensures Sentences.BranchesText(ts, []) == "then: " + Sentences.ShowItems(ts) + "end of conditional"
  {
    assert Sentences.CanonicalItems([]);
    assert Sentences.ElseText([]) == "";
    assert Sentences.ShowItems(ts) + "" == Sentences.ShowItems(ts);
  }

  lemma LemmaThenText(c: string, b: string)
    ensures c + " " + ("then: " + b + "end of conditional") == c + " then: " + b + "end of conditional"
  {
  }
}
