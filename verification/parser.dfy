/**
 * `WordyParser`: a PEG over the normalised input text. Every rule is a function from a position
 * to `Some(Match(node, end))` or `None`. Choices are ordered and backtrack: a failed rule
 * consumes nothing and leaves no value behind, as a failed parboiled sequence restores the value
 * stack. The `ZeroOrMore`/`OneOrMore` loops are the `...Rest` and `Items` functions, which
 * always stop at the longest run of complete repetitions.
 *
 * A `Block` match collects its statements into a list of its own; the grammar's `Var` holding
 * that list is read as one list per match.
 */
module Parser {
  import opened Wrappers
  import Ast
  import Text
  import Variables

  /** A rule's value and the position after the text it consumed. */
  datatype Match<T> = Match(node: T, end: nat)

  // ------------------------------------------------ normalisation

  /** The characters of Java's regular-expression class `\s`. */
  predicate JavaSpace(c: char)
  {
    c == ' ' || c == '\t' || c == '\n' || c == '\U{B}' || c == '\U{C}' || c == '\r'
  }

  /** Text normalisation leaves alone: no upper-case letter, no whitespace but the space. */
  predicate Normal(s: string)
  {
    forall k :: 0 <= k < |s| ==> !Text.IsUpper(s[k]) && (JavaSpace(s[k]) ==> s[k] == ' ')
  }

  /** One character of `input.toLowerCase().replaceAll("\\s", " ")`. */
  function NormalChar(c: char): char
  {
    if JavaSpace(c) then ' ' else Text.ToLower(c)
  }

  /**
   * What `parse` does to its input before matching: upper-case letters become lower-case,
   * every whitespace character becomes a space, and nothing else changes.
   */
  function Normalize(input: string): (s: string)
    ensures |s| == |input| && Normal(s)
    ensures forall k :: 0 <= k < |s| && JavaSpace(input[k]) ==> s[k] == ' '
    ensures forall k :: 0 <= k < |s| && Text.IsUpper(input[k]) ==>
      'a' <= s[k] <= 'z' && s[k] as int - input[k] as int == 'a' as int - 'A' as int
    ensures forall k :: 0 <= k < |s| && !JavaSpace(input[k]) && !Text.IsUpper(input[k]) ==> s[k] == input[k]
  {
    if input == [] then [] else [NormalChar(input[0])] + Normalize(input[1..])
  }

  /** Normalised text is left as it is: normalising twice is normalising once. */
  lemma {:induction false} LemmaNormalizeFixes(s: string)
    requires Normal(s)
    ensures Normalize(s) == s
  {
    if s != [] {
      assert Normal(s[1..]) by {
        forall k | 0 <= k < |s[1..]| ensures !Text.IsUpper(s[1..][k]) && (JavaSpace(s[1..][k]) ==> s[1..][k] == ' ') {
          assert s[1..][k] == s[k + 1];
        }
      }
      LemmaNormalizeFixes(s[1..]);
      assert s == [s[0]] + s[1..];
    }
  }

  lemma LemmaNormalizeIdempotent(input: string)
    ensures Normalize(Normalize(input)) == Normalize(input)
  {
    LemmaNormalizeFixes(Normalize(input));
  }

  /** Inputs that differ only in letter case and in the kind of whitespace parse alike. */
  lemma LemmaSameNormalForm(a: string, b: string)
    requires Normalize(a) == Normalize(b)
    ensures ParseProgram(a) == ParseProgram(b)
    ensures ParseStatement(a) == ParseStatement(b)
    ensures ParseExpression(a) == ParseExpression(b)
  {
  }

  // ------------------------------------------------ characters and key phrases

  /** `s` holds `t` at position `i`. */
  predicate At(s: string, i: nat, t: string)
  {
    i + |t| <= |s| && forall k :: 0 <= k < |t| ==> s[i + k] == t[k]
  }

  /** The end of the longest run of characters satisfying `p` from `i`. */
  function RunEnd(s: string, i: nat, p: char -> bool): (j: nat)
    requires i <= |s|
    ensures i <= j <= |s|
    ensures j == |s| || !p(s[j])
    decreases |s| - i
  {
    if i < |s| && p(s[i]) then RunEnd(s, i + 1, p) else i
  }

  /** Every character of the run satisfies `p`. */
  lemma {:induction false} LemmaRunEnd(s: string, i: nat, p: char -> bool)
    requires i <= |s|
    ensures forall k :: i <= k < RunEnd(s, i, p) ==> p(s[k])
    decreases |s| - i
  {
    if i < |s| && p(s[i]) {
      LemmaRunEnd(s, i + 1, p);
    }
  }

  /** A run of digits is a digit string. */
  lemma LemmaRunDigits(s: string, i: nat)
    requires i <= |s|
    ensures Text.AllDigits(s[i..RunEnd(s, i, Text.IsDigit)])
  {
    LemmaRunEnd(s, i, Text.IsDigit);
    var x := s[i..RunEnd(s, i, Text.IsDigit)];
    assert forall k :: 0 <= k < |x| ==> x[k] == s[i + k];
  }

  predicate IsBlank(c: char)
  {
    c == ' '
  }

  /** `OptionalSpace`: `ZeroOrMore(" ")`. */
  function OptionalSpace(s: string, i: nat): (j: nat)
    requires i <= |s|
    ensures i <= j <= |s|
  {
    RunEnd(s, i, IsBlank)
  }

  /** `OptionalSurroundingSpace(c)`: spaces, the character `c`, spaces. */
  function Surrounded(s: string, i: nat, c: char): (r: Option<nat>)
    requires i <= |s|
    ensures r.Some? ==> i < r.value <= |s|
  {
    var j := OptionalSpace(s, i);
    if j < |s| && s[j] == c then Some(OptionalSpace(s, j + 1)) else None
  }

  /** `KeyPhrase`: each word of the phrase, exactly, followed by optional spaces. */
  function KeyPhrase(s: string, i: nat, words: seq<string>): (r: Option<nat>)
    requires i <= |s|
    ensures r.Some? ==> i <= r.value <= |s|
    ensures r.Some? && words != [] ==> i + |words[0]| <= r.value
    decreases words
  {
    if words == [] then Some(i)
    else if At(s, i, words[0]) then KeyPhrase(s, OptionalSpace(s, i + |words[0]|), words[1..])
    else None
  }

  const Plus: seq<string> := ["plus"]
  const Minus: seq<string> := ["minus"]
  const Times: seq<string> := ["times"]
  const DividedBy: seq<string> := ["divided", "by"]
  const PowerOf: seq<string> := ["to", "the", "power", "of"]
  const Squared: seq<string> := ["squared"]
  const SetWord: seq<string> := ["set"]
  const ToWord: seq<string> := ["to"]
  const IfWord: seq<string> := ["if"]
  const Equals: seq<string> := ["equals"]
  const IsEqualTo: seq<string> := ["is", "equal", "to"]
  const IsLessThan: seq<string> := ["is", "less", "than"]
  const IsGreaterThan: seq<string> := ["is", "greater", "than"]
  const Then: seq<string> := ["then"]
  const Else: seq<string> := ["else"]
  const EndOfConditional: seq<string> := ["end", "of", "conditional"]
  const LoopWord: seq<string> := ["loop"]
  const EndOfLoop: seq<string> := ["end", "of", "loop"]
  const ExitLoop: seq<string> := ["exit", "loop"]

  // ------------------------------------------------ names

  /** The characters of a `Variable`: `[a-z]`, `[A-Z]` or `_`. */
  predicate NameChar(c: char)
  {
    'a' <= c <= 'z' || 'A' <= c <= 'Z' || c == '_'
  }

  /** A name the `Variable` rule can have read from `s`: name characters, each found in `s`. */
  predicate NameFrom(x: string, s: string)
  {
    |x| > 0 && forall k :: 0 <= k < |x| ==> NameChar(x[k]) && x[k] in s
  }

  predicate ExprNamesFrom(e: Ast.Expr, s: string)
  {
    match e
    case Const(_) => true
    case Var(x) => NameFrom(x, s)
    case Bin(_, l, r) => ExprNamesFrom(l, s) && ExprNamesFrom(r, s)
  }

  predicate StmtNamesFrom(st: Ast.Stmt, s: string)
  {
    match st
    case Assign(x, e) => NameFrom(x, s) && ExprNamesFrom(e, s)
    case Block(ss) => forall k :: 0 <= k < |ss| ==> StmtNamesFrom(ss[k], s)
    case Cond(_, l, r, t, f) => ExprNamesFrom(l, s) && ExprNamesFrom(r, s) && StmtNamesFrom(t, s) && StmtNamesFrom(f, s)
    case Loop(b) => StmtNamesFrom(b, s)
    case Exit => true
  }

  // ------------------------------------------------ expressions

  /** The value of the `Number` text `['-'] whole ['.' frac]`, exactly: `parseDouble` before rounding. */
  function NumberValue(negative: bool, whole: string, frac: string): real
    requires Text.AllDigits(whole) && Text.AllDigits(frac)
  {
    var magnitude := Text.DigitsValue(whole) as real + Text.DigitsValue(frac) as real / Text.Pow10(|frac|) as real;
    if negative then -magnitude else magnitude
  }

  /** The position after the optional '-' of a number. */
  function SignEnd(s: string, i: nat): (a: nat)
    requires i <= |s|
    ensures i <= a <= |s| && (a > i <==> i < |s| && s[i] == '-')
  {
    if i < |s| && s[i] == '-' then i + 1 else i
  }

  /** The position after the optional '.' and digits of a number whose whole digits end at `b`. */
  function FractionEnd(s: string, b: nat): (c: nat)
    requires b <= |s|
    ensures b <= c <= |s| && (c > b ==> c > b + 1 && s[b] == '.')
  {
    if b < |s| && s[b] == '.' && RunEnd(s, b + 1, Text.IsDigit) > b + 1 then RunEnd(s, b + 1, Text.IsDigit) else b
  }

  /** `Number`: an optional '-', digits, and optionally '.' and digits; then optional spaces. */
  function Number(s: string, i: nat): (r: Option<Match<Ast.Expr>>)
    requires i <= |s|
    ensures r.Some? ==> i < r.value.end <= |s| && r.value.node.Const?
    ensures r.Some? ==> i < |s| && (s[i] == '-' || Text.IsDigit(s[i]))
  {
    var a := SignEnd(s, i);
    var b := RunEnd(s, a, Text.IsDigit);
    if b == a then None
    else
      var c := FractionEnd(s, b);
      var frac := if c == b then "" else s[b + 1..c];
      LemmaRunDigits(s, a);
      if c > b then LemmaRunDigits(s, b + 1); Some(Match(Ast.Const(NumberValue(a > i, s[a..b], frac)), OptionalSpace(s, c)))
      else Some(Match(Ast.Const(NumberValue(a > i, s[a..b], frac)), OptionalSpace(s, c)))
  }

  /** `Variable`: the longest run of name characters, then optional spaces. */
  function Variable(s: string, i: nat): (r: Option<Match<string>>)
    requires i <= |s|
    ensures r.Some? ==> i < r.value.end <= |s| && NameFrom(r.value.node, s)
    ensures r.Some? <==> i < |s| && NameChar(s[i])
  {
    var j := RunEnd(s, i, NameChar);
    if j == i then None
    else
      var x := s[i..j];
      LemmaRunEnd(s, i, NameChar);
      assert forall k :: 0 <= k < |x| ==> x[k] == s[i + k];
      Some(Match(x, OptionalSpace(s, j)))
  }

  function Expression(s: string, i: nat): (r: Option<Match<Ast.Expr>>)
    requires i <= |s|
    ensures r.Some? ==> i < r.value.end <= |s| && ExprNamesFrom(r.value.node, s)
    decreases |s| - i, 6
  {
    Additive(s, i)
  }

  /** `AdditiveExpression`: multiplicative operands joined by "plus"/"minus", grouped to the left. */
  function Additive(s: string, i: nat): (r: Option<Match<Ast.Expr>>)
    requires i <= |s|
    ensures r.Some? ==> i < r.value.end <= |s| && ExprNamesFrom(r.value.node, s)
    decreases |s| - i, 5
  {
    match Multiplicative(s, i)
    case None => None
    case Some(m) => Some(AdditiveRest(s, m.end, m.node))
  }

  function AdditiveOp(s: string, i: nat): (r: Option<(Ast.BinOp, nat)>)
    requires i <= |s|
    ensures r.Some? ==> i < r.value.1 <= |s|
  {
    match KeyPhrase(s, i, Plus)
    case Some(j) => Some((Ast.Addition, j))
    case None =>
      match KeyPhrase(s, i, Minus)
      case Some(j) => Some((Ast.Subtraction, j))
      case None => None
  }

  /** The `ZeroOrMore` of `AdditiveExpression`, with `acc` the operand read so far. */
  function AdditiveRest(s: string, i: nat, acc: Ast.Expr): (r: Match<Ast.Expr>)
    requires i <= |s| && ExprNamesFrom(acc, s)
    ensures i <= r.end <= |s| && ExprNamesFrom(r.node, s)
    decreases |s| - i, 0
  {
    match AdditiveOp(s, i)
    case None => Match(acc, i)
    case Some((op, j)) =>
      match Multiplicative(s, j)
      case None => Match(acc, i)
      case Some(m) => AdditiveRest(s, m.end, Ast.Bin(op, acc, m.node))
  }

  /** `MultiplicativeExpression`: exponential operands joined by "times"/"divided by", grouped to the left. */
  function Multiplicative(s: string, i: nat): (r: Option<Match<Ast.Expr>>)
    requires i <= |s|
    ensures r.Some? ==> i < r.value.end <= |s| && ExprNamesFrom(r.value.node, s)
    decreases |s| - i, 4
  {
    match Exponential(s, i)
    case None => None
    case Some(m) => Some(MultiplicativeRest(s, m.end, m.node))
  }

  function MultiplicativeOp(s: string, i: nat): (r: Option<(Ast.BinOp, nat)>)
    requires i <= |s|
    ensures r.Some? ==> i < r.value.1 <= |s|
  {
    match KeyPhrase(s, i, Times)
    case Some(j) => Some((Ast.Multiplication, j))
    case None =>
      match KeyPhrase(s, i, DividedBy)
      case Some(j) => Some((Ast.Division, j))
      case None => None
  }

  function MultiplicativeRest(s: string, i: nat, acc: Ast.Expr): (r: Match<Ast.Expr>)
    requires i <= |s| && ExprNamesFrom(acc, s)
    ensures i <= r.end <= |s| && ExprNamesFrom(r.node, s)
    decreases |s| - i, 0
  {
    match MultiplicativeOp(s, i)
    case None => Match(acc, i)
    case Some((op, j)) =>
      match Exponential(s, j)
      case None => Match(acc, i)
      case Some(m) => MultiplicativeRest(s, m.end, Ast.Bin(op, acc, m.node))
  }

  /**
   * `ExponentialExpression`: an atom followed by any number of "to the power of" (whose right
   * operand is again a whole exponential expression) and "squared".
   */
  function Exponential(s: string, i: nat): (r: Option<Match<Ast.Expr>>)
    requires i <= |s|
    ensures r.Some? ==> i < r.value.end <= |s| && ExprNamesFrom(r.value.node, s)
    decreases |s| - i, 3
  {
    match Atom(s, i)
    case None => None
    case Some(m) => Some(ExponentialRest(s, m.end, m.node))
  }

  function ExponentialRest(s: string, i: nat, acc: Ast.Expr): (r: Match<Ast.Expr>)
    requires i <= |s| && ExprNamesFrom(acc, s)
    ensures i <= r.end <= |s| && ExprNamesFrom(r.node, s)
    decreases |s| - i, 0
  {
    var power := match KeyPhrase(s, i, PowerOf) case None => None case Some(j) => Exponential(s, j);
    if power.Some? then ExponentialRest(s, power.value.end, Ast.Bin(Ast.Exponentiation, acc, power.value.node))
    else
      match KeyPhrase(s, i, Squared)
      case Some(j) => ExponentialRest(s, j, Ast.Bin(Ast.Exponentiation, acc, Ast.Const(2.0)))
      case None => Match(acc, i)
  }

  /** `Atom`: a number, else a variable, else a parenthesised expression. */
  function Atom(s: string, i: nat): (r: Option<Match<Ast.Expr>>)
    requires i <= |s|
    ensures r.Some? ==> i < r.value.end <= |s| && ExprNamesFrom(r.value.node, s)
    decreases |s| - i, 2
  {
    match Number(s, i)
    case Some(m) => Some(m)
    case None =>
      match Variable(s, i)
      case Some(m) => Some(Match(Ast.Var(m.node), m.end))
      case None => Parens(s, i)
  }

  function Parens(s: string, i: nat): (r: Option<Match<Ast.Expr>>)
    requires i <= |s|
    ensures r.Some? ==> i < r.value.end <= |s| && ExprNamesFrom(r.value.node, s)
    decreases |s| - i, 1
  {
    match Surrounded(s, i, '(')
    case None => None
    case Some(j) =>
      match Expression(s, j)
      case None => None
      case Some(m) =>
        match Surrounded(s, m.end, ')')
        case None => None
        case Some(k) => Some(Match(m.node, k))
  }

  // ------------------------------------------------ statements

  /** `Block`: one or more statements, each followed by '.', in one block node. */
  function Block(s: string, i: nat): (r: Option<Match<Ast.Stmt>>)
    requires i <= |s|
    ensures r.Some? ==> i < r.value.end <= |s| && StmtNamesFrom(r.value.node, s)
    ensures r.Some? ==> r.value.node.Block? && r.value.node.stmts != []
    decreases |s| - i, 5
  {
    var items := Items(s, i);
    if items.node == [] then None else Some(Match(Ast.Block(items.node), items.end))
  }

  /** The `OneOrMore` of `Block`, as a `ZeroOrMore`. */
  function Items(s: string, i: nat): (r: Match<seq<Ast.Stmt>>)
    requires i <= |s|
    ensures i <= r.end <= |s| && (r.node == [] <==> r.end == i)
    ensures forall k :: 0 <= k < |r.node| ==> StmtNamesFrom(r.node[k], s)
    decreases |s| - i, 4
  {
    match Statement(s, i)
    case None => Match([], i)
    case Some(st) => MoreItems(s, i, st)
  }

  /** After a statement read from `i`: its '.', then the statements after it. */
  function MoreItems(s: string, i: nat, st: Match<Ast.Stmt>): (r: Match<seq<Ast.Stmt>>)
    requires i < st.end <= |s| && StmtNamesFrom(st.node, s)
    ensures i <= r.end <= |s| && (r.node == [] <==> r.end == i)
    ensures forall k :: 0 <= k < |r.node| ==> StmtNamesFrom(r.node[k], s)
    decreases |s| - i, 3
  {
    match Surrounded(s, st.end, '.')
    case None => Match([], i)
    case Some(j) =>
      var rest := Items(s, j);
      Match([st.node] + rest.node, rest.end)
  }

  function Statement(s: string, i: nat): (r: Option<Match<Ast.Stmt>>)
    requires i <= |s|
    ensures r.Some? ==> i < r.value.end <= |s| && StmtNamesFrom(r.value.node, s)
    decreases |s| - i, 3
  {
    var assignment := Assignment(s, i);
    if assignment.Some? then assignment
    else
      var conditional := Conditional(s, i);
      if conditional.Some? then conditional
      else
        var loop := Loop(s, i);
        if loop.Some? then loop else LoopExit(s, i)
  }

  function Assignment(s: string, i: nat): (r: Option<Match<Ast.Stmt>>)
    requires i <= |s|
    ensures r.Some? ==> i < r.value.end <= |s| && StmtNamesFrom(r.value.node, s)
  {
    match KeyPhrase(s, i, SetWord)
    case None => None
    case Some(j) =>
      match Variable(s, j)
      case None => None
      case Some(v) => AssignedValue(s, v.node, v.end)
  }

  /** After the variable of an assignment: "to" and the expression. */
  function AssignedValue(s: string, x: string, b: nat): (r: Option<Match<Ast.Stmt>>)
    requires b <= |s| && NameFrom(x, s)
    ensures r.Some? ==> b < r.value.end <= |s| && StmtNamesFrom(r.value.node, s)
  {
    match KeyPhrase(s, b, ToWord)
    case None => None
    case Some(k) =>
      match Expression(s, k)
      case None => None
      case Some(e) => Some(Match(Ast.Assign(x, e.node), e.end))
  }

  /** The comparison words, tried in order. */
  function Comparison(s: string, i: nat): (r: Option<(Ast.CmpOp, nat)>)
    requires i <= |s|
    ensures r.Some? ==> i < r.value.1 <= |s|
  {
    if KeyPhrase(s, i, Equals).Some? then Some((Ast.EqualTo, KeyPhrase(s, i, Equals).value))
    else if KeyPhrase(s, i, IsEqualTo).Some? then Some((Ast.EqualTo, KeyPhrase(s, i, IsEqualTo).value))
    else if KeyPhrase(s, i, IsLessThan).Some? then Some((Ast.LessThan, KeyPhrase(s, i, IsLessThan).value))
    else if KeyPhrase(s, i, IsGreaterThan).Some? then Some((Ast.GreaterThan, KeyPhrase(s, i, IsGreaterThan).value))
    else None
  }

  function Conditional(s: string, i: nat): (r: Option<Match<Ast.Stmt>>)
    requires i <= |s|
    ensures r.Some? ==> i < r.value.end <= |s| && StmtNamesFrom(r.value.node, s)
    decreases |s| - i, 2
  {
    match KeyPhrase(s, i, IfWord)
    case None => None
    case Some(j) =>
      match Expression(s, j)
      case None => None
      case Some(l) => Comparing(s, l.node, l.end)
  }

  /** After the left operand of a condition: the comparison, the right operand and the branches. */
  function Comparing(s: string, l: Ast.Expr, p: nat): (r: Option<Match<Ast.Stmt>>)
    requires p <= |s| && ExprNamesFrom(l, s)
    ensures r.Some? ==> p < r.value.end <= |s| && StmtNamesFrom(r.value.node, s)
    decreases |s| - p, 2
  {
    match Comparison(s, p)
    case None => None
    case Some((op, k)) =>
      match Expression(s, k)
      case None => None
      case Some(r) => CondBranches(s, op, l, r.node, r.end)
  }

  /** After both operands of a condition: the branches. */
  function CondBranches(s: string, op: Ast.CmpOp, l: Ast.Expr, r: Ast.Expr, e: nat): (res: Option<Match<Ast.Stmt>>)
    requires e <= |s| && ExprNamesFrom(l, s) && ExprNamesFrom(r, s)
    ensures res.Some? ==> e < res.value.end <= |s| && StmtNamesFrom(res.value.node, s)
    decreases |s| - e, 2
  {
    match Branches(s, e)
    case None => None
    case Some(b) => Some(Match(Ast.Cond(op, l, r, b.node.0, b.node.1), b.end))
  }

  /** The block form, else the single-statement form. */
  function Branches(s: string, i: nat): (r: Option<Match<(Ast.Stmt, Ast.Stmt)>>)
    requires i <= |s|
    ensures r.Some? ==> i < r.value.end <= |s|
    ensures r.Some? ==> StmtNamesFrom(r.value.node.0, s) && StmtNamesFrom(r.value.node.1, s)
    decreases |s| - i, 1
  {
    var blocks := BlockBranches(s, i);
    if blocks.Some? then blocks else StatementBranches(s, i)
  }

  /** "then" ':' block, optionally "else" ':' block, "end of conditional". */
  function BlockBranches(s: string, i: nat): (r: Option<Match<(Ast.Stmt, Ast.Stmt)>>)
    requires i <= |s|
    ensures r.Some? ==> i < r.value.end <= |s|
    ensures r.Some? ==> StmtNamesFrom(r.value.node.0, s) && StmtNamesFrom(r.value.node.1, s)
    decreases |s| - i, 0
  {
    match KeyPhrase(s, i, Then)
    case None => None
    case Some(j) =>
      match Surrounded(s, j, ':')
      case None => None
      case Some(k) => ThenBlock(s, k)
  }

  /** After "then" ':': the then block, the optional else block and "end of conditional". */
  function ThenBlock(s: string, k: nat): (r: Option<Match<(Ast.Stmt, Ast.Stmt)>>)
    requires k <= |s|
    ensures r.Some? ==> k < r.value.end <= |s|
    ensures r.Some? ==> StmtNamesFrom(r.value.node.0, s) && StmtNamesFrom(r.value.node.1, s)
    decreases |s| - k, 6
  {
    match Block(s, k)
    case None => None
    case Some(t) => ConditionalEnd(s, t.node, ElseBlock(s, t.end))
  }

  /** "end of conditional" after the blocks of a conditional. */
  function ConditionalEnd(s: string, t: Ast.Stmt, f: Match<Ast.Stmt>): (r: Option<Match<(Ast.Stmt, Ast.Stmt)>>)
    requires f.end <= |s|
    ensures r.Some? ==> f.end < r.value.end <= |s| && r.value.node == (t, f.node)
  {
    match KeyPhrase(s, f.end, EndOfConditional)
    case None => None
    case Some(e) => Some(Match((t, f.node), e))
  }

  /** The optional else block; `BlockNode.EMPTY` when it is absent. */
  function ElseBlock(s: string, i: nat): (r: Match<Ast.Stmt>)
    requires i <= |s|
    ensures i <= r.end <= |s| && StmtNamesFrom(r.node, s)
    ensures r.end == i ==> r.node == Ast.EmptyBlock
    decreases |s| - i, 0
  {
    match KeyPhrase(s, i, Else)
    case None => Match(Ast.EmptyBlock, i)
    case Some(j) =>
      match Surrounded(s, j, ':')
      case None => Match(Ast.EmptyBlock, i)
      case Some(k) =>
        match Block(s, k)
        case None => Match(Ast.EmptyBlock, i)
        case Some(f) => f
  }

  /** "then" statement, optionally "else" statement. */
  function StatementBranches(s: string, i: nat): (r: Option<Match<(Ast.Stmt, Ast.Stmt)>>)
    requires i <= |s|
    ensures r.Some? ==> i < r.value.end <= |s|
    ensures r.Some? ==> StmtNamesFrom(r.value.node.0, s) && StmtNamesFrom(r.value.node.1, s)
    decreases |s| - i, 0
  {
    match KeyPhrase(s, i, Then)
    case None => None
    case Some(j) =>
      match Statement(s, j)
      case None => None
      case Some(t) =>
        var f := ElseStatement(s, t.end);
        Some(Match((t.node, f.node), f.end))
  }

  function ElseStatement(s: string, i: nat): (r: Match<Ast.Stmt>)
    requires i <= |s|
    ensures i <= r.end <= |s| && StmtNamesFrom(r.node, s)
    ensures r.end == i ==> r.node == Ast.EmptyBlock
    decreases |s| - i, 0
  {
    match KeyPhrase(s, i, Else)
    case None => Match(Ast.EmptyBlock, i)
    case Some(j) =>
      match Statement(s, j)
      case None => Match(Ast.EmptyBlock, i)
      case Some(f) => f
  }

  function Loop(s: string, i: nat): (r: Option<Match<Ast.Stmt>>)
    requires i <= |s|
    ensures r.Some? ==> i < r.value.end <= |s| && StmtNamesFrom(r.value.node, s)
    decreases |s| - i, 2
  {
    match KeyPhrase(s, i, LoopWord)
    case None => None
    case Some(j) =>
      match Surrounded(s, j, ':')
      case None => None
      case Some(k) => LoopBody(s, k)
  }

  /** After "loop" ':': the body and "end of loop". */
  function LoopBody(s: string, k: nat): (r: Option<Match<Ast.Stmt>>)
    requires k <= |s|
    ensures r.Some? ==> k < r.value.end <= |s| && StmtNamesFrom(r.value.node, s)
    decreases |s| - k, 6
  {
    match Block(s, k)
    case None => None
    case Some(b) =>
      match KeyPhrase(s, b.end, EndOfLoop)
      case None => None
      case Some(e) => Some(Match(Ast.Loop(b.node), e))
  }

  function LoopExit(s: string, i: nat): (r: Option<Match<Ast.Stmt>>)
    requires i <= |s|
    ensures r.Some? ==> i < r.value.end <= |s| && r.value.node == Ast.Exit
    decreases |s| - i, 2
  {
    match KeyPhrase(s, i, ExitLoop)
    case None => None
    case Some(j) => Some(Match(Ast.Exit, j))
  }

  // ------------------------------------------------ entry points

  /** `Program` followed by `EOI`: optional spaces, a block, and nothing after it. */
  function Program(s: string): (r: Option<Ast.Stmt>)
  {
    match Block(s, OptionalSpace(s, 0))
    case None => None
    case Some(m) => if m.end == |s| then Some(m.node) else None
  }

  function ParseProgram(input: string): (r: Option<Ast.Stmt>)
  {
    Program(Normalize(input))
  }

  /** `Statement` followed by `EOI`; no leading spaces are allowed. */
  function ParseStatement(input: string): (r: Option<Ast.Stmt>)
  {
    var s := Normalize(input);
    match Statement(s, 0)
    case None => None
    case Some(m) => if m.end == |s| then Some(m.node) else None
  }

  /** `Expression` followed by `EOI`; no leading spaces are allowed. */
  function ParseExpression(input: string): (r: Option<Ast.Expr>)
  {
    var s := Normalize(input);
    match Expression(s, 0)
    case None => None
    case Some(m) => if m.end == |s| then Some(m.node) else None
  }
}
