/**
 * Canonical Wordy text for statements and programs, the partner of the statement rules: every
 * statement of a block is followed by ". ", loops read "loop: ... end of loop", and
 * conditionals are written in the block form "if l cmp r then: ... [else: ...] end of
 * conditional". Reading the text back gives the statements it was written from.
 */
module Sentences {
  import opened Wrappers
  import opened Ast
  import P = Parser
  import opened Reading
  import opened Wording

  // ------------------------------------------------ canonical text

  /** The first spelling the grammar tries for each comparison, as one text. */
  function CmpText(op: CmpOp): string
  {
    match op
    case EqualTo => "equals"
    case LessThan => "is less than"
    case GreaterThan => "is greater than"
  }

  /**
   * Statements canonical text can write: printable expressions, lower-case names, loop bodies
   * and then-branches that are non-empty blocks, else-branches that are blocks. A block stands
   * only as such a body or branch, never as a statement of its own.
   */
  predicate Canonical(st: Stmt)
    decreases StmtSize(st), 0
  {
    match st
    case Assign(x, e) => LowerName(x) && Printable(e)
    case Exit => true
    case Loop(b) => b.Block? && b.stmts != [] && (LemmaBlockSize(b); CanonicalItems(b.stmts))
    case Cond(_, l, r, t, f) =>
      Printable(l) && Printable(r) && t.Block? && t.stmts != [] && f.Block? &&
      (LemmaBlockSize(t); LemmaBlockSize(f); CanonicalItems(t.stmts) && CanonicalItems(f.stmts))
    case Block(_) => false
  }

  lemma LemmaBlockSize(b: Stmt)
    requires b.Block?
    ensures StmtSize(b) == 1 + StmtsSize(b.stmts)
  {
  }

  predicate CanonicalItems(ss: seq<Stmt>)
    decreases StmtsSize(ss), 1
  {
    ss == [] || (Canonical(ss[0]) && CanonicalItems(ss[1..]))
  }

  function ShowStmt(st: Stmt): string
    requires Canonical(st)
    decreases StmtSize(st), 0
  {
    match st
    case Assign(x, e) => "set " + x + " to " + Show(e)
    case Exit => "exit loop"
    case Loop(b) => LemmaBlockSize(b); "loop: " + ShowItems(b.stmts) + "end of loop"
    case Cond(op, l, r, t, f) =>
      LemmaBlockSize(t); LemmaBlockSize(f);
      Condition(op, l, r) + " " + BranchesText(t.stmts, f.stmts)
  }

  /** The statements of a block, each followed by ". ". */
  function ShowItems(ss: seq<Stmt>): string
    requires CanonicalItems(ss)
    decreases StmtsSize(ss), 1
  {
    if ss == [] then "" else ShowStmt(ss[0]) + ". " + ShowItems(ss[1..])
  }

  /** "if", the left expression, the comparison, the right expression. */
  function Condition(op: CmpOp, l: Expr, r: Expr): string
    requires Printable(l) && Printable(r)
  {
    "if " + Show(l) + " " + CmpText(op) + " " + Show(r)
  }

  function BranchesText(ts: seq<Stmt>, fs: seq<Stmt>): string
    requires CanonicalItems(ts) && CanonicalItems(fs)
    decreases StmtsSize(ts) + StmtsSize(fs) + 2, 3
  {
    "then: " + ShowItems(ts) + ElseText(fs) + "end of conditional"
  }

  /** An empty else-branch is not written. */
  function ElseText(fs: seq<Stmt>): string
    requires CanonicalItems(fs)
    decreases StmtsSize(fs), 2
  {
    if fs == [] then "" else "else: " + ShowItems(fs)
  }

  /** The canonical text of a program: its block's statements. */
  function ShowProgram(p: Stmt): string
    requires p.Block? && CanonicalItems(p.stmts)
  {
    ShowItems(p.stmts)
  }

  // ------------------------------------------------ text at a position

  lemma LemmaAtInfix(s: string, i: nat, t: string, a: nat, b: nat)
    requires P.At(s, i, t) && a <= b <= |t|
    ensures P.At(s, i + a, t[a..b])
  {
    forall k | 0 <= k < b - a ensures s[i + a + k] == t[a..b][k] {
      LemmaAtIndex(s, i, t, a + k);
    }
  }

  /** Canonical statement text starts with a lower-case letter. */
  lemma LemmaStmtStart(st: Stmt)
    requires Canonical(st)
    ensures ShowStmt(st) != [] && 'a' <= ShowStmt(st)[0] <= 'z'
  {
    match st
    case Assign(x, e) =>
    case Exit =>
    case Loop(b) =>
    case Cond(op, l, r, t, f) =>
      assert Condition(op, l, r)[0] == 'i';
  }

  lemma LemmaItemsStart(ss: seq<Stmt>)
    requires CanonicalItems(ss) && ss != []
    ensures ShowItems(ss) != [] && 'a' <= ShowItems(ss)[0] <= 'z'
  {
    LemmaStmtStart(ss[0]);
  }

  /** Where a statement's text ends: the end of the input, or ". " after it. */
  predicate StmtEnds(s: string, j: nat)
  {
    j == |s| || (j + 1 < |s| && s[j] == '.' && s[j + 1] == ' ')
  }

  /** Where the statements of a block may end: the end of the input, or a word such as "end" or "else" that begins with 'e' and not "ex". */
  predicate ItemsEnd(s: string, j: nat)
  {
    j <= |s| && (j == |s| || (j + 1 < |s| && s[j] == 'e' && s[j + 1] != 'x'))
  }

  lemma LemmaEndAt(s: string, j: nat, w: string)
    requires P.At(s, j, w) && |w| >= 2 && w[0] == 'e' && w[1] != 'x'
    ensures ItemsEnd(s, j)
  {
    LemmaAtIndex(s, j, w, 0);
    LemmaAtIndex(s, j, w, 1);
  }

  lemma LemmaStmtEnds(s: string, j: nat)
    requires j <= |s| && StmtEnds(s, j)
    ensures Ends(s, j) && NoOperatorAt(s, j) && P.OptionalSpace(s, j) == j
  {
    LemmaNoSpace(s, j);
    LemmaNoOperatorAtChar(s, j);
  }

  // ------------------------------------------------ key phrases of statements

  lemma LemmaExitLoopPhrase()
    ensures Phrase(P.ExitLoop) == "exit loop"
  {
    assert Phrase(["loop"]) == "loop";
  }

  lemma LemmaEndOfLoopPhrase()
    ensures Phrase(P.EndOfLoop) == "end of loop"
  {
    assert Phrase(["of", "loop"]) == "of loop";
  }

  lemma LemmaLessThanPhrase()
    ensures Phrase(P.IsLessThan) == "is less than"
  {
    assert Phrase(["less", "than"]) == "less than";
  }

  lemma LemmaGreaterThanPhrase()
    ensures Phrase(P.IsGreaterThan) == "is greater than"
  {
    assert Phrase(["greater", "than"]) == "greater than";
  }

  lemma LemmaEndOfConditionalPhrase()
    ensures Phrase(P.EndOfConditional) == "end of conditional"
  {
    assert Phrase(["of", "conditional"]) == "of conditional";
  }

  /** A phrase whose second word is not where it would start, after one space, does not match. */
  lemma LemmaSecondWordMiss(s: string, p: nat, words: seq<string>)
    requires |words| >= 2 && words[1] != [] && P.At(s, p, words[0])
    requires p + |words[0]| + 1 < |s| && s[p + |words[0]|] == ' '
    requires s[p + |words[0]| + 1] != ' ' && s[p + |words[0]| + 1] != words[1][0]
    ensures P.KeyPhrase(s, p, words) == None
  {
    var b := p + |words[0]| + 1;
    LemmaOneSpace(s, b - 1);
    assert !P.At(s, b, words[1]) by {
      assert s[b + 0] != words[1][0];
    }
    assert words[1..][0] == words[1];
  }

  /** No statement starts at the end of a block. */
  lemma LemmaNoStatement(s: string, j: nat)
    requires ItemsEnd(s, j)
    ensures P.Statement(s, j) == None
  {
    if j == |s| {
      LemmaKeyPhraseAtEnd(s, P.SetWord);
      LemmaKeyPhraseAtEnd(s, P.IfWord);
      LemmaKeyPhraseAtEnd(s, P.LoopWord);
      LemmaKeyPhraseAtEnd(s, P.ExitLoop);
    } else {
      LemmaCharMiss(s, j, P.SetWord, 0);
      LemmaCharMiss(s, j, P.IfWord, 0);
      LemmaCharMiss(s, j, P.LoopWord, 0);
      LemmaCharMiss(s, j, P.ExitLoop, 1);
    }
  }

  /** A comparison's canonical words are read as that comparison. */
  lemma LemmaComparisonAt(op: CmpOp, s: string, p: nat)
    requires P.At(s, p, CmpText(op)) && p + |CmpText(op)| + 1 < |s|
    requires s[p + |CmpText(op)|] == ' ' && s[p + |CmpText(op)| + 1] != ' '
    ensures P.Comparison(s, p) == Some((op, p + |CmpText(op)| + 1))
  {
    var q := p + |CmpText(op)| + 1;
    match op
    case EqualTo => LemmaEqualsAt(s, p);
    case LessThan => LemmaLessThanAt(s, p, q);
    case GreaterThan => LemmaGreaterThanAt(s, p, q);
  }

  lemma {:induction false} LemmaEqualsAt(s: string, p: nat)
    requires P.At(s, p, "equals") && p + 7 < |s| && s[p + 6] == ' ' && s[p + 7] != ' '
    ensures P.Comparison(s, p) == Some((EqualTo, p + 7))
  {
    LemmaOneSpace(s, p + 6);
    LemmaKeyPhraseAt(s, p, P.Equals);
  }

  /** "is", one space, and a character that is not the next word's first. */
  lemma LemmaIsThen(s: string, p: nat, t: string)
    requires P.At(s, p, t) && |t| > 3 && t[..3] == "is "
    ensures P.At(s, p, "is") && s[p + 2] == ' ' && s[p + 3] == t[3]
  {
    LemmaAtInfix(s, p, t, 0, 2);
    assert t[0..2] == "is";
    LemmaAtIndex(s, p, t, 2);
    LemmaAtIndex(s, p, t, 3);
  }

  lemma {:induction false} LemmaLessThanAt(s: string, p: nat, q: nat)
    requires P.At(s, p, "is less than") && q == p + 13 && q < |s| && s[q - 1] == ' ' && s[q] != ' '
    ensures P.Comparison(s, p) == Some((LessThan, q))
  {
    LemmaLessThanWords(s, p, q);
  }

  /** "is less than" is neither "equals" nor "is equal to". */
  lemma {:induction false} LemmaLessThanWords(s: string, p: nat, q: nat)
    requires P.At(s, p, "is less than") && q == p + 13 && q < |s| && s[q - 1] == ' ' && s[q] != ' '
    ensures P.KeyPhrase(s, p, P.Equals) == None && P.KeyPhrase(s, p, P.IsEqualTo) == None
    ensures P.KeyPhrase(s, p, P.IsLessThan) == Some(q)
  {
    LemmaMiss(s, p, "is less than", P.Equals);
    LemmaIsThen(s, p, "is less than");
    LemmaSecondWordMiss(s, p, P.IsEqualTo);
    LemmaLessThanPhrase();
    LemmaPhraseSpaceAt(s, p, P.IsLessThan, "is less than", q);
  }

  lemma {:induction false} LemmaGreaterThanAt(s: string, p: nat, q: nat)
    requires P.At(s, p, "is greater than") && q == p + 16 && q < |s| && s[q - 1] == ' ' && s[q] != ' '
    ensures P.Comparison(s, p) == Some((GreaterThan, q))
  {
    LemmaGreaterThanWords(s, p, q);
  }

  /** "is greater than" is none of "equals", "is equal to" and "is less than". */
  lemma {:induction false} LemmaGreaterThanWords(s: string, p: nat, q: nat)
    requires P.At(s, p, "is greater than") && q == p + 16 && q < |s| && s[q - 1] == ' ' && s[q] != ' '
    ensures P.KeyPhrase(s, p, P.Equals) == None && P.KeyPhrase(s, p, P.IsEqualTo) == None
    ensures P.KeyPhrase(s, p, P.IsLessThan) == None && P.KeyPhrase(s, p, P.IsGreaterThan) == Some(q)
  {
    LemmaMiss(s, p, "is greater than", P.Equals);
    LemmaIsThen(s, p, "is greater than");
    LemmaSecondWordMiss(s, p, P.IsEqualTo);
    LemmaSecondWordMiss(s, p, P.IsLessThan);
    LemmaGreaterThanPhrase();
    LemmaPhraseSpaceAt(s, p, P.IsGreaterThan, "is greater than", q);
  }

  // ------------------------------------------------ single parser facts

  /** A word followed by exactly one space is its one-word key phrase. */
  lemma {:induction false} LemmaWordSpaceAt(s: string, i: nat, w: string)
    requires P.At(s, i, w) && w != [] && i + |w| + 1 < |s| && s[i + |w|] == ' ' && s[i + |w| + 1] != ' '
    ensures P.KeyPhrase(s, i, [w]) == Some(i + |w| + 1)
  {
    LemmaOneSpace(s, i + |w|);
  }

  /** A key phrase followed by exactly one space is matched through that space. */
  lemma {:induction false} LemmaPhraseSpaceAt(s: string, i: nat, words: seq<string>, t: string, q: nat)
    requires words != [] && (forall k :: 0 <= k < |words| ==> Word(words[k])) && Phrase(words) == t
    requires P.At(s, i, t) && q == i + |t| + 1 && q < |s| && s[q - 1] == ' ' && s[q] != ' '
    ensures P.KeyPhrase(s, i, words) == Some(q)
  {
    LemmaKeyPhraseAt(s, i, words);
    LemmaOneSpace(s, q - 1);
  }

  /** The word `w` at `i`, then ": ", then at `d` a character that is no space. */
  predicate ColonAt(s: string, i: nat, w: string, d: nat)
  {
    P.At(s, i, w) && d == i + |w| + 2 && d < |s| && s[d - 2] == ':' && s[d - 1] == ' ' && s[d] != ' '
  }

  /** A word followed by ": " and then no space is its key phrase and the ':' after it. */
  lemma {:induction false} LemmaColonAt(s: string, i: nat, w: string, n: nat, d: nat)
    requires w != [] && ColonAt(s, i, w, d) && n == i + |w|
    ensures P.KeyPhrase(s, i, [w]) == Some(n) && P.Surrounded(s, n, ':') == Some(d)
  {
    LemmaNoSpace(s, n);
    LemmaOneSpace(s, n + 1);
  }

  /** A key phrase at the end of a statement's text. */
  lemma {:induction false} LemmaPhraseEndAt(s: string, i: nat, words: seq<string>, t: string)
    requires words != [] && (forall k :: 0 <= k < |words| ==> Word(words[k])) && Phrase(words) == t
    requires P.At(s, i, t) && StmtEnds(s, i + |t|)
    ensures P.KeyPhrase(s, i, words) == Some(i + |t|)
  {
    LemmaKeyPhraseAt(s, i, words);
    LemmaNoSpace(s, i + |t|);
  }

  /** ". " after a statement, and no further space. */
  lemma {:induction false} LemmaDotAt(s: string, p: nat, q: nat)
    requires q == p + 2 && p + 1 < |s| && s[p] == '.' && s[p + 1] == ' ' && (q == |s| || s[q] != ' ')
    ensures P.Surrounded(s, p, '.') == Some(q)
  {
    LemmaNoSpace(s, p);
    LemmaOneSpace(s, p + 1);
  }

  /** A lower-case name followed by exactly one space is read as that name. */
  lemma {:induction false} LemmaNameSpaceAt(s: string, a: nat, x: string)
    requires LowerName(x) && P.At(s, a, x) && a + |x| + 1 < |s| && s[a + |x|] == ' ' && s[a + |x| + 1] != ' '
    ensures P.Variable(s, a) == Some(P.Match(x, a + |x| + 1))
  {
    LemmaVariableAt(s, a, x);
    LemmaOneSpace(s, a + |x|);
  }

  /** An expression's canonical text at the end of a statement's text. */
  lemma {:induction false} LemmaOperandEnd(e: Expr, s: string, a: nat, j: nat)
    requires Printable(e) && P.At(s, a, Show(e)) && j == a + |Show(e)| && StmtEnds(s, j)
    ensures P.Expression(s, a) == Some(P.Match(e, j))
  {
    LemmaStmtEnds(s, j);
    LemmaReadShow(e, s, a);
    LemmaOperand(s, a, e, j);
  }

  /** An expression's canonical text followed by one space and a word that is no operator. */
  lemma {:induction false} LemmaOperandBefore(e: Expr, s: string, a: nat, p: nat)
    requires Printable(e) && P.At(s, a, Show(e)) && p == a + |Show(e)| + 1 && p < |s|
    requires s[p - 1] == ' ' && s[p] != ' ' && NoOperatorAt(s, p)
    ensures P.Expression(s, a) == Some(P.Match(e, p))
  {
    LemmaReadOperand(e, s, a, p - 1);
    LemmaOperand(s, a, e, p);
  }

  // ------------------------------------------------ statement rules, one step each

  lemma {:induction false} LemmaStatementIsAssignment(s: string, i: nat, m: P.Match<Stmt>)
    requires i <= |s| && P.Assignment(s, i) == Some(m)
    ensures P.Statement(s, i) == Some(m)
  {
  }

  lemma {:induction false} LemmaStatementIsConditional(s: string, i: nat, m: P.Match<Stmt>)
    requires i <= |s| && P.Assignment(s, i) == None && P.Conditional(s, i) == Some(m)
    ensures P.Statement(s, i) == Some(m)
  {
  }

  lemma {:induction false} LemmaStatementIsLoop(s: string, i: nat, m: P.Match<Stmt>)
    requires i <= |s| && P.Assignment(s, i) == None && P.Conditional(s, i) == None && P.Loop(s, i) == Some(m)
    ensures P.Statement(s, i) == Some(m)
  {
  }

  lemma {:induction false} LemmaStatementIsExit(s: string, i: nat, m: P.Match<Stmt>)
    requires i <= |s| && P.Assignment(s, i) == None && P.Conditional(s, i) == None && P.Loop(s, i) == None
    requires P.LoopExit(s, i) == Some(m)
    ensures P.Statement(s, i) == Some(m)
  {
  }

  /** The statement rules that begin with a key word do not apply where that word is missing. */
  lemma {:induction false} LemmaNoKeyWord(s: string, i: nat)
    requires i <= |s|
    ensures P.KeyPhrase(s, i, P.SetWord) == None ==> P.Assignment(s, i) == None
    ensures P.KeyPhrase(s, i, P.IfWord) == None ==> P.Conditional(s, i) == None
    ensures P.KeyPhrase(s, i, P.LoopWord) == None ==> P.Loop(s, i) == None
    ensures P.KeyPhrase(s, i, P.ExitLoop) == None ==> P.LoopExit(s, i) == None
  {
  }

  lemma {:induction false} LemmaAssignmentAt(s: string, i: nat, j: nat, x: string, b: nat, m: P.Match<Stmt>)
    requires i <= |s| && P.KeyPhrase(s, i, P.SetWord) == Some(j) && j <= |s| && P.Variable(s, j) == Some(P.Match(x, b))
    requires b <= |s| && P.NameFrom(x, s) && P.AssignedValue(s, x, b) == Some(m)
    ensures P.Assignment(s, i) == Some(m)
  {
  }

  lemma {:induction false} LemmaAssignedValueAt(s: string, x: string, b: nat, k: nat, e: Expr, j: nat)
    requires b <= |s| && P.NameFrom(x, s) && P.KeyPhrase(s, b, P.ToWord) == Some(k)
    requires k <= |s| && P.Expression(s, k) == Some(P.Match(e, j))
    ensures P.AssignedValue(s, x, b) == Some(P.Match(Assign(x, e), j))
  {
  }

  lemma {:induction false} LemmaExitAt(s: string, i: nat, j: nat)
    requires i <= |s| && P.KeyPhrase(s, i, P.ExitLoop) == Some(j)
    ensures P.LoopExit(s, i) == Some(P.Match(Exit, j))
  {
  }

  lemma {:induction false} LemmaLoopAt(s: string, i: nat, j: nat, k: nat, m: P.Match<Stmt>)
    requires i <= |s| && P.KeyPhrase(s, i, P.LoopWord) == Some(j) && j <= |s| && P.Surrounded(s, j, ':') == Some(k)
    requires k <= |s| && P.LoopBody(s, k) == Some(m)
    ensures P.Loop(s, i) == Some(m)
  {
  }

  lemma {:induction false} LemmaLoopBodyAt(s: string, k: nat, body: Stmt, e: nat, j: nat)
    requires k <= |s| && P.Block(s, k) == Some(P.Match(body, e)) && e <= |s| && P.KeyPhrase(s, e, P.EndOfLoop) == Some(j)
    ensures P.LoopBody(s, k) == Some(P.Match(Loop(body), j))
  {
  }

  lemma {:induction false} LemmaConditionalAt(s: string, i: nat, j: nat, l: Expr, p: nat, m: P.Match<Stmt>)
    requires i <= |s| && P.KeyPhrase(s, i, P.IfWord) == Some(j) && j <= |s| && P.Expression(s, j) == Some(P.Match(l, p))
    requires p <= |s| && P.ExprNamesFrom(l, s) && P.Comparing(s, l, p) == Some(m)
    ensures P.Conditional(s, i) == Some(m)
  {
  }

  lemma {:induction false} LemmaComparingAt(s: string, l: Expr, p: nat, op: CmpOp, k: nat, r: Expr, e: nat, m: P.Match<Stmt>)
    requires p <= |s| && P.ExprNamesFrom(l, s) && P.Comparison(s, p) == Some((op, k))
    requires k <= |s| && P.Expression(s, k) == Some(P.Match(r, e))
    requires e <= |s| && P.ExprNamesFrom(r, s) && P.CondBranches(s, op, l, r, e) == Some(m)
    ensures P.Comparing(s, l, p) == Some(m)
  {
  }

  lemma {:induction false} LemmaCondBranchesAt(s: string, op: CmpOp, l: Expr, r: Expr, e: nat, t: Stmt, f: Stmt, j: nat)
    requires e <= |s| && P.ExprNamesFrom(l, s) && P.ExprNamesFrom(r, s) && P.Branches(s, e) == Some(P.Match((t, f), j))
    ensures P.CondBranches(s, op, l, r, e) == Some(P.Match(Cond(op, l, r, t, f), j))
  {
  }

  lemma {:induction false} LemmaBranchesAt(s: string, k: nat, m: P.Match<(Stmt, Stmt)>)
    requires k <= |s| && P.BlockBranches(s, k) == Some(m)
    ensures P.Branches(s, k) == Some(m)
  {
  }

  lemma {:induction false} LemmaBlockBranchesAt(s: string, k: nat, j: nat, c: nat, m: P.Match<(Stmt, Stmt)>)
    requires k <= |s| && P.KeyPhrase(s, k, P.Then) == Some(j) && j <= |s| && P.Surrounded(s, j, ':') == Some(c)
    requires c <= |s| && P.ThenBlock(s, c) == Some(m)
    ensures P.BlockBranches(s, k) == Some(m)
  {
  }

  lemma {:induction false} LemmaThenBlockAt(s: string, k: nat, t: Stmt, b: nat, f: Stmt, c: nat, j: nat)
    requires k <= |s| && P.Block(s, k) == Some(P.Match(t, b)) && b <= |s| && P.ElseBlock(s, b) == P.Match(f, c)
    requires c <= |s| && P.ConditionalEnd(s, t, P.Match(f, c)) == Some(P.Match((t, f), j))
    ensures P.ThenBlock(s, k) == Some(P.Match((t, f), j))
  {
  }

  lemma {:induction false} LemmaConditionalEndAt(s: string, t: Stmt, f: Stmt, c: nat, j: nat)
    requires c <= |s| && P.KeyPhrase(s, c, P.EndOfConditional) == Some(j)
    ensures P.ConditionalEnd(s, t, P.Match(f, c)) == Some(P.Match((t, f), j))
  {
  }

  lemma {:induction false} LemmaElseAt(s: string, b: nat, j: nat, k: nat, f: Stmt, c: nat)
    requires b <= |s| && P.KeyPhrase(s, b, P.Else) == Some(j) && j <= |s| && P.Surrounded(s, j, ':') == Some(k)
    requires k <= |s| && P.Block(s, k) == Some(P.Match(f, c))
    ensures P.ElseBlock(s, b) == P.Match(f, c)
  {
  }

  lemma {:induction false} LemmaNoElseAt(s: string, b: nat)
    requires b <= |s| && P.KeyPhrase(s, b, P.Else) == None
    ensures P.ElseBlock(s, b) == P.Match(EmptyBlock, b)
  {
  }

  lemma {:induction false} LemmaBlockAt(s: string, i: nat, ss: seq<Stmt>, e: nat)
    requires i <= |s| && P.Items(s, i) == P.Match(ss, e) && ss != []
    ensures P.Block(s, i) == Some(P.Match(Block(ss), e))
  {
  }

  lemma {:induction false} LemmaItemsAt(s: string, i: nat, m: P.Match<Stmt>)
    requires i <= |s| && P.Statement(s, i) == Some(m)
    ensures i < m.end <= |s| && P.StmtNamesFrom(m.node, s) && P.Items(s, i) == P.MoreItems(s, i, m)
  {
  }

  lemma {:induction false} LemmaMoreItemsAt(s: string, i: nat, st: Stmt, p: nat, q: nat, rest: seq<Stmt>, e: nat)
    requires i < p <= |s| && P.StmtNamesFrom(st, s) && P.Surrounded(s, p, '.') == Some(q)
    requires q <= |s| && P.Items(s, q) == P.Match(rest, e)
    ensures P.MoreItems(s, i, P.Match(st, p)) == P.Match([st] + rest, e)
  {
  }

  lemma {:induction false} LemmaNoItems(s: string, i: nat)
    requires i <= |s| && P.Statement(s, i) == None
    ensures P.Items(s, i) == P.Match([], i)
  {
  }

  // ------------------------------------------------ assignments and loop exits

  /** Where the parts of "set x to e" stand. */
  lemma LemmaAssignLayout(s: string, i: nat, x: string, e: string)
    requires P.At(s, i, "set " + x + " to " + e)
    ensures P.At(s, i, "set") && P.At(s, i + 4, x) && P.At(s, i + 5 + |x|, "to") && P.At(s, i + 8 + |x|, e)
    ensures s[i + 3] == ' ' && s[i + 4 + |x|] == ' ' && s[i + 5 + |x|] == 't' && s[i + 7 + |x|] == ' '
  {
    LemmaAtConcat(s, i, "set " + x + " to ", e);
    LemmaAtConcat(s, i, "set " + x, " to ");
    LemmaAtConcat(s, i, "set ", x);
    LemmaAtInfix(s, i, "set ", 0, 3);
    assert "set "[0..3] == "set";
    LemmaAtIndex(s, i, "set ", 3);
    LemmaAtInfix(s, i + 4 + |x|, " to ", 1, 3);
    assert " to "[1..3] == "to";
    LemmaAtIndex(s, i + 4 + |x|, " to ", 0);
    LemmaAtIndex(s, i + 4 + |x|, " to ", 1);
    LemmaAtIndex(s, i + 4 + |x|, " to ", 3);
  }

  /** The same, with the first characters of the name and of the value, at the positions `a`, `b` and `k`. */
  lemma LemmaAssignPlaces(s: string, i: nat, x: string, v: string, a: nat, b: nat, k: nat)
    requires x != [] && x[0] != ' ' && v != [] && v[0] != ' ' && P.At(s, i, "set " + x + " to " + v)
    requires a == i + 4 && b == a + |x| + 1 && k == b + 3
    ensures P.At(s, i, "set") && P.At(s, a, x) && P.At(s, b, "to") && P.At(s, k, v)
    ensures s[a - 1] == ' ' && s[a] != ' ' && s[b - 1] == ' ' && s[b] == 't' && s[k - 1] == ' ' && s[k] != ' '
  {
    LemmaAssignLayout(s, i, x, v);
    LemmaAtIndex(s, a, x, 0);
    LemmaAtIndex(s, k, v, 0);
  }

  /** The text of an assignment. */
  lemma LemmaAssignShape(st: Stmt)
    requires st.Assign? && Canonical(st)
    ensures st == Assign(st.target, st.expr) && LowerName(st.target) && Printable(st.expr)
    ensures ShowStmt(st) == "set " + st.target + " to " + Show(st.expr)
    ensures |ShowStmt(st)| == 8 + |st.target| + |Show(st.expr)|
  {
  }

  /** "set x to e" is read as the assignment. */
  lemma {:induction false} LemmaReadAssign(st: Stmt, s: string, i: nat, j: nat)
    requires st.Assign? && Canonical(st)
    requires P.At(s, i, ShowStmt(st)) && j == i + |ShowStmt(st)| && StmtEnds(s, j)
    ensures P.Statement(s, i) == Some(P.Match(st, j))
  {
    LemmaAssignShape(st);
    LemmaAssignText(s, i, st.target, st.expr, ShowStmt(st), j);
  }

  lemma {:induction false} LemmaAssignText(s: string, i: nat, x: string, e: Expr, t: string, j: nat)
    requires LowerName(x) && Printable(e) && t == "set " + x + " to " + Show(e) && |t| == 8 + |x| + |Show(e)|
    requires P.At(s, i, t) && j == i + |t| && StmtEnds(s, j)
    ensures P.Statement(s, i) == Some(P.Match(Assign(x, e), j))
  {
    var a := i + 4;
    var b := a + |x| + 1;
    var k := b + 3;
    LemmaShowStart(e);
    LemmaAssignPlaces(s, i, x, Show(e), a, b, k);
    LemmaOperandEnd(e, s, k, j);
    LemmaAssignWords(s, i, x, a, b, k);
    LemmaAssignSteps(s, i, x, a, b, k, e, j);
  }

  /** "set", the name and "to", each followed by one space. */
  lemma {:induction false} LemmaAssignWords(s: string, i: nat, x: string, a: nat, b: nat, k: nat)
    requires LowerName(x) && a == i + 4 && b == a + |x| + 1 && k == b + 3 && k < |s|
    requires P.At(s, i, "set") && P.At(s, a, x) && P.At(s, b, "to")
    requires s[a - 1] == ' ' && s[a] != ' ' && s[b - 1] == ' ' && s[b] == 't' && s[k - 1] == ' ' && s[k] != ' '
    ensures P.KeyPhrase(s, i, P.SetWord) == Some(a) && P.Variable(s, a) == Some(P.Match(x, b))
    ensures P.KeyPhrase(s, b, P.ToWord) == Some(k)
  {
    LemmaWordSpaceAt(s, i, "set");
    LemmaNameSpaceAt(s, a, x);
    LemmaWordSpaceAt(s, b, "to");
  }

  lemma {:induction false} LemmaAssignSteps(s: string, i: nat, x: string, a: nat, b: nat, k: nat, e: Expr, j: nat)
    requires i <= a <= b <= k <= |s| && P.KeyPhrase(s, i, P.SetWord) == Some(a)
    requires P.Variable(s, a) == Some(P.Match(x, b)) && P.KeyPhrase(s, b, P.ToWord) == Some(k)
    requires P.Expression(s, k) == Some(P.Match(e, j))
    ensures P.Statement(s, i) == Some(P.Match(Assign(x, e), j))
  {
    LemmaAssignedValueAt(s, x, b, k, e, j);
    LemmaAssignmentAt(s, i, a, x, b, P.Match(Assign(x, e), j));
    LemmaStatementIsAssignment(s, i, P.Match(Assign(x, e), j));
  }

  /** "exit loop" is read as the loop exit. */
  lemma {:induction false} LemmaReadExit(s: string, i: nat, j: nat)
    requires P.At(s, i, "exit loop") && j == i + 9 && StmtEnds(s, j)
    ensures P.Statement(s, i) == Some(P.Match(Exit, j))
  {
    LemmaExitLoopPhrase();
    LemmaPhraseEndAt(s, i, P.ExitLoop, "exit loop");
    LemmaExitWords(s, i);
    LemmaExitSteps(s, i, j);
  }

  /** "exit loop" begins none of the other statements. */
  lemma {:induction false} LemmaExitWords(s: string, i: nat)
    requires P.At(s, i, "exit loop")
    ensures P.Assignment(s, i) == None && P.Conditional(s, i) == None && P.Loop(s, i) == None
  {
    LemmaMiss(s, i, "exit loop", P.SetWord);
    LemmaMiss(s, i, "exit loop", P.IfWord);
    LemmaMiss(s, i, "exit loop", P.LoopWord);
    LemmaNoKeyWord(s, i);
  }

  lemma {:induction false} LemmaExitSteps(s: string, i: nat, j: nat)
    requires i <= |s| && P.Assignment(s, i) == None && P.Conditional(s, i) == None && P.Loop(s, i) == None
    requires P.KeyPhrase(s, i, P.ExitLoop) == Some(j)
    ensures P.Statement(s, i) == Some(P.Match(Exit, j))
  {
    LemmaExitAt(s, i, j);
    LemmaStatementIsExit(s, i, P.Match(Exit, j));
  }

  // ------------------------------------------------ blocks

  /** Where ". " and the next statements stand after a statement. */
  lemma LemmaItemLayout(s: string, i: nat, t: string, rest: string)
    requires P.At(s, i, t + ". " + rest)
    ensures P.At(s, i, t) && s[i + |t|] == '.' && s[i + |t| + 1] == ' ' && P.At(s, i + |t| + 2, rest)
  {
    LemmaAtConcat(s, i, t + ". ", rest);
    LemmaAtConcat(s, i, t, ". ");
    LemmaAtIndex(s, i + |t|, ". ", 0);
    LemmaAtIndex(s, i + |t|, ". ", 1);
  }

  /** The same, with the statement ending at `p` and the statements after it standing at `q`. */
  lemma LemmaItemPlaces(s: string, i: nat, t: string, rest: string, p: nat, q: nat, e: nat)
    requires rest == [] || 'a' <= rest[0] <= 'z'
    requires P.At(s, i, t + ". " + rest) && p == i + |t| && q == p + 2 && e == q + |rest| && ItemsEnd(s, e)
    ensures P.At(s, i, t) && p + 1 < |s| && s[p] == '.' && s[p + 1] == ' ' && StmtEnds(s, p)
    ensures P.At(s, q, rest) && (q == |s| || s[q] != ' ')
  {
    LemmaItemLayout(s, i, t, rest);
    if rest != [] {
      LemmaAtIndex(s, q, rest, 0);
    }
  }

  /** The statements of a block followed by where the block ends are read as those statements. */
  lemma {:induction false} LemmaReadItems(ss: seq<Stmt>, s: string, i: nat, e: nat)
    requires CanonicalItems(ss) && P.At(s, i, ShowItems(ss)) && e == i + |ShowItems(ss)| && ItemsEnd(s, e)
    ensures P.Items(s, i) == P.Match(ss, e)
    decreases StmtsSize(ss), 4
  {
    if ss == [] {
      LemmaNoStatement(s, i);
      LemmaNoItems(s, i);
    } else {
      LemmaItemsShape(ss);
      LemmaItemsText(ss, s, i, ShowStmt(ss[0]), ShowItems(ss[1..]), ShowItems(ss), e);
    }
  }

  /** The text of a non-empty sequence of statements. */
  lemma LemmaItemsShape(ss: seq<Stmt>)
    requires ss != [] && CanonicalItems(ss)
    ensures Canonical(ss[0]) && CanonicalItems(ss[1..]) && [ss[0]] + ss[1..] == ss
    ensures ShowItems(ss) == ShowStmt(ss[0]) + ". " + ShowItems(ss[1..])
    ensures |ShowItems(ss)| == |ShowStmt(ss[0])| + 2 + |ShowItems(ss[1..])|
  {
  }

  lemma {:induction false} LemmaItemsText(ss: seq<Stmt>, s: string, i: nat, t: string, rest: string, u: string, e: nat)
    requires ss != [] && Canonical(ss[0]) && CanonicalItems(ss[1..]) && [ss[0]] + ss[1..] == ss
    requires t == ShowStmt(ss[0]) && rest == ShowItems(ss[1..]) && u == t + ". " + rest && |u| == |t| + 2 + |rest|
    requires P.At(s, i, u) && e == i + |u| && ItemsEnd(s, e)
    ensures P.Items(s, i) == P.Match(ss, e)
    decreases StmtsSize(ss), 3
  {
    var p := i + |t|;
    var q := p + 2;
    if ss[1..] != [] {
      LemmaItemsStart(ss[1..]);
    }
    LemmaItemPlaces(s, i, t, rest, p, q, e);
    LemmaReadStmt(ss[0], s, i, p);
    LemmaItemsTail(ss, s, i, p, q, e);
  }

  /** After the first statement is read, the rest. */
  lemma {:induction false} LemmaItemsTail(ss: seq<Stmt>, s: string, i: nat, p: nat, q: nat, e: nat)
    requires ss != [] && CanonicalItems(ss[1..]) && [ss[0]] + ss[1..] == ss
    requires i <= p && q == p + 2 && p + 1 < |s| && P.Statement(s, i) == Some(P.Match(ss[0], p))
    requires s[p] == '.' && s[p + 1] == ' ' && (q == |s| || s[q] != ' ')
    requires P.At(s, q, ShowItems(ss[1..])) && e == q + |ShowItems(ss[1..])| && ItemsEnd(s, e)
    ensures P.Items(s, i) == P.Match(ss, e)
    decreases StmtsSize(ss), 2
  {
    LemmaReadItems(ss[1..], s, q, e);
    LemmaItemsCons(s, i, ss[0], p, q, ss[1..], e);
  }

  /** A statement, ". ", and the statements after it. */
  lemma {:induction false} LemmaItemsCons(s: string, i: nat, st: Stmt, p: nat, q: nat, rest: seq<Stmt>, e: nat)
    requires i <= |s| && P.Statement(s, i) == Some(P.Match(st, p))
    requires q == p + 2 && p + 1 < |s| && s[p] == '.' && s[p + 1] == ' ' && (q == |s| || s[q] != ' ')
    requires P.Items(s, q) == P.Match(rest, e)
    ensures P.Items(s, i) == P.Match([st] + rest, e)
  {
    LemmaDotAt(s, p, q);
    LemmaItemsAt(s, i, P.Match(st, p));
    LemmaMoreItemsAt(s, i, st, p, q, rest, e);
  }

  /** A block's statements followed by where the block ends are read as the block. */
  lemma {:induction false} LemmaReadBlock(ss: seq<Stmt>, s: string, k: nat, b: nat)
    requires ss != [] && CanonicalItems(ss) && P.At(s, k, ShowItems(ss)) && b == k + |ShowItems(ss)| && ItemsEnd(s, b)
    ensures P.Block(s, k) == Some(P.Match(Block(ss), b))
    decreases StmtsSize(ss), 5
  {
    LemmaReadItems(ss, s, k, b);
    LemmaBlockAt(s, k, ss, b);
  }

  /** The canonical text of a statement, followed by ". " or the end of the input, is read as that statement. */
  lemma {:induction false} LemmaReadStmt(st: Stmt, s: string, i: nat, j: nat)
    requires Canonical(st) && P.At(s, i, ShowStmt(st)) && j == i + |ShowStmt(st)| && StmtEnds(s, j)
    ensures P.Statement(s, i) == Some(P.Match(st, j))
    decreases StmtSize(st), 2
  {
    match st
    case Assign(_, _) => LemmaReadAssign(st, s, i, j);
    case Exit => LemmaReadExit(s, i, j);
    case Loop(_) => LemmaReadLoop(st, s, i, j);
    case Cond(_, _, _, _, _) => LemmaReadCond(st, s, i, j);
  }

  // ------------------------------------------------ loops

  /** Where the parts of "loop: ... end of loop" stand. */
  lemma LemmaLoopLayout(s: string, i: nat, m: string)
    requires P.At(s, i, "loop: " + m + "end of loop")
    ensures P.At(s, i, "loop") && s[i + 4] == ':' && s[i + 5] == ' ' && P.At(s, i + 6, m)
    ensures P.At(s, i + 6 + |m|, "end of loop") && P.At(s, i + 6 + |m|, "end")
  {
    LemmaAtConcat(s, i, "loop: " + m, "end of loop");
    LemmaAtConcat(s, i, "loop: ", m);
    LemmaAtInfix(s, i, "loop: ", 0, 4);
    assert "loop: "[0..4] == "loop";
    LemmaAtIndex(s, i, "loop: ", 4);
    LemmaAtIndex(s, i, "loop: ", 5);
    LemmaAtInfix(s, i + 6 + |m|, "end of loop", 0, 3);
    assert "end of loop"[0..3] == "end";
  }

  /** The same, with the body at `d` and "end of loop" at `e`. */
  lemma LemmaLoopPlaces(s: string, i: nat, m: string, d: nat, e: nat)
    requires m != [] && 'a' <= m[0] <= 'z'
    requires P.At(s, i, "loop: " + m + "end of loop") && d == i + 6 && e == d + |m|
    ensures ColonAt(s, i, "loop", d) && P.At(s, d, m) && ItemsEnd(s, e) && P.At(s, e, "end of loop")
  {
    LemmaLoopLayout(s, i, m);
    LemmaAtIndex(s, d, m, 0);
    LemmaEndAt(s, e, "end");
  }

  /** "end of loop" followed by ". " or the end of the input is read as the phrase. */
  lemma {:induction false} LemmaEndOfLoopAt(s: string, e: nat, j: nat)
    requires P.At(s, e, "end of loop") && j == e + 11 && StmtEnds(s, j)
    ensures P.KeyPhrase(s, e, P.EndOfLoop) == Some(j)
  {
    LemmaEndOfLoopPhrase();
    LemmaPhraseEndAt(s, e, P.EndOfLoop, "end of loop");
  }

  /** "end of conditional" followed by ". " or the end of the input is read as the phrase. */
  lemma {:induction false} LemmaEndOfConditionalAt(s: string, c: nat, j: nat)
    requires P.At(s, c, "end of conditional") && j == c + 18 && StmtEnds(s, j)
    ensures P.KeyPhrase(s, c, P.EndOfConditional) == Some(j)
  {
    LemmaEndOfConditionalPhrase();
    LemmaPhraseEndAt(s, c, P.EndOfConditional, "end of conditional");
  }

  /** The text of a loop. */
  lemma LemmaLoopShape(st: Stmt)
    requires st.Loop? && Canonical(st)
    ensures st == Loop(Block(st.body.stmts)) && st.body.stmts != [] && CanonicalItems(st.body.stmts)
    ensures StmtsSize(st.body.stmts) < StmtSize(st)
    ensures ShowStmt(st) == "loop: " + ShowItems(st.body.stmts) + "end of loop"
    ensures |ShowStmt(st)| == 17 + |ShowItems(st.body.stmts)|
  {
    LemmaBlockSize(st.body);
  }

  /** "loop: ... end of loop" is read as the loop. */
  lemma {:induction false} LemmaReadLoop(st: Stmt, s: string, i: nat, j: nat)
    requires st.Loop? && Canonical(st)
    requires P.At(s, i, ShowStmt(st)) && j == i + |ShowStmt(st)| && StmtEnds(s, j)
    ensures P.Statement(s, i) == Some(P.Match(st, j))
    decreases StmtSize(st), 1
  {
    LemmaLoopShape(st);
    LemmaLoopText(st.body.stmts, s, i, ShowStmt(st), j);
  }

  lemma {:induction false} LemmaLoopText(ss: seq<Stmt>, s: string, i: nat, t: string, j: nat)
    requires ss != [] && CanonicalItems(ss)
    requires t == "loop: " + ShowItems(ss) + "end of loop" && |t| == 17 + |ShowItems(ss)|
    requires P.At(s, i, t) && j == i + |t| && StmtEnds(s, j)
    ensures P.Statement(s, i) == Some(P.Match(Loop(Block(ss)), j))
    decreases StmtsSize(ss), 7
  {
    var d := i + 6;
    var e := d + |ShowItems(ss)|;
    LemmaItemsStart(ss);
    LemmaLoopPlaces(s, i, ShowItems(ss), d, e);
    LemmaEndOfLoopAt(s, e, j);
    LemmaLoopBody(ss, s, i, d, e, j);
  }

  /** The body and "end of loop". */
  lemma {:induction false} LemmaLoopBody(ss: seq<Stmt>, s: string, i: nat, d: nat, e: nat, j: nat)
    requires ss != [] && CanonicalItems(ss) && ColonAt(s, i, "loop", d) && P.At(s, d, ShowItems(ss))
    requires e == d + |ShowItems(ss)| && ItemsEnd(s, e) && P.KeyPhrase(s, e, P.EndOfLoop) == Some(j)
    ensures P.Statement(s, i) == Some(P.Match(Loop(Block(ss)), j))
    decreases StmtsSize(ss), 6
  {
    LemmaReadBlock(ss, s, d, e);
    LemmaLoopSteps(s, i, d, Block(ss), e, j);
  }

  /** What "loop: " tells the statement rules. */
  lemma {:induction false} LemmaLoopWords(s: string, i: nat, n: nat, d: nat)
    requires ColonAt(s, i, "loop", d) && n == i + 4
    ensures P.Assignment(s, i) == None && P.Conditional(s, i) == None
    ensures P.KeyPhrase(s, i, P.LoopWord) == Some(n) && P.Surrounded(s, n, ':') == Some(d)
  {
    LemmaMiss(s, i, "loop", P.SetWord);
    LemmaMiss(s, i, "loop", P.IfWord);
    LemmaNoKeyWord(s, i);
    LemmaColonAt(s, i, "loop", n, d);
  }

  /** From the body's block to the loop statement. */
  lemma {:induction false} LemmaLoopSteps(s: string, i: nat, d: nat, b: Stmt, e: nat, j: nat)
    requires ColonAt(s, i, "loop", d)
    requires e <= |s| && P.Block(s, d) == Some(P.Match(b, e)) && P.KeyPhrase(s, e, P.EndOfLoop) == Some(j)
    ensures P.Statement(s, i) == Some(P.Match(Loop(b), j))
  {
    LemmaLoopBodyAt(s, d, b, e, j);
    LemmaLoopIs(s, i, d, P.Match(Loop(b), j));
  }

  lemma {:induction false} LemmaLoopIs(s: string, i: nat, d: nat, m: P.Match<Stmt>)
    requires ColonAt(s, i, "loop", d) && P.LoopBody(s, d) == Some(m)
    ensures P.Statement(s, i) == Some(m)
  {
    var n := i + 4;
    LemmaLoopWords(s, i, n, d);
    LemmaLoopAt(s, i, n, d, m);
    LemmaStatementIsLoop(s, i, m);
  }

  // ------------------------------------------------ conditionals

  /** Where the parts of "if l cmp r" stand. */
  lemma LemmaConditionLayout(s: string, i: nat, l: string, c: string, r: string)
    requires P.At(s, i, "if " + l + " " + c + " " + r)
    ensures P.At(s, i, "if") && s[i + 2] == ' ' && P.At(s, i + 3, l) && s[i + 3 + |l|] == ' '
    ensures P.At(s, i + 4 + |l|, c) && s[i + 4 + |l| + |c|] == ' ' && P.At(s, i + 5 + |l| + |c|, r)
  {
    LemmaInsideLayout(s, i, "if " + l, c, r);
    LemmaAtConcat(s, i, "if ", l);
    LemmaAtInfix(s, i, "if ", 0, 2);
    assert "if "[0..2] == "if";
    LemmaAtIndex(s, i, "if ", 2);
  }

  /** The comparison words begin no operator word. */
  lemma LemmaNoOperatorAtComparison(op: CmpOp, s: string, p: nat)
    requires P.At(s, p, CmpText(op))
    ensures NoOperatorAt(s, p)
  {
    assert CmpText(op)[..2] == "eq" || CmpText(op)[..2] == "is";
    LemmaNoOperatorBefore(s, p, CmpText(op));
  }

  /** The comparison words are no space and begin no operator word. */
  lemma LemmaCmpStart(op: CmpOp, s: string, p: nat)
    requires P.At(s, p, CmpText(op))
    ensures s[p] != ' ' && NoOperatorAt(s, p)
  {
    assert CmpText(op)[0] != ' ';
    LemmaAtIndex(s, p, CmpText(op), 0);
    LemmaNoOperatorAtComparison(op, s, p);
  }

  /** "if" followed by one space and no other. */
  lemma {:induction false} LemmaIfWords(s: string, i: nat, a: nat)
    requires P.At(s, i, "if") && a == i + 3 && a < |s| && s[a - 1] == ' ' && s[a] != ' '
    ensures P.Assignment(s, i) == None && P.KeyPhrase(s, i, P.IfWord) == Some(a)
  {
    LemmaMiss(s, i, "if", P.SetWord);
    LemmaNoKeyWord(s, i);
    LemmaWordSpaceAt(s, i, "if");
  }

  /** The comparison and the right operand of a condition, followed by one space and a word that is no operator. */
  lemma {:induction false} LemmaRightOperand(op: CmpOp, r: Expr, s: string, p: nat, q: nat, k: nat)
    requires Printable(r) && P.At(s, p, CmpText(op)) && q == p + |CmpText(op)| + 1 && q < |s| && s[q - 1] == ' ' && s[q] != ' '
    requires P.At(s, q, Show(r)) && k == q + |Show(r)| + 1 && k < |s| && s[k - 1] == ' ' && s[k] != ' '
    requires NoOperatorAt(s, k)
    ensures P.Comparison(s, p) == Some((op, q)) && P.Expression(s, q) == Some(P.Match(r, k))
  {
    LemmaComparisonAt(op, s, p);
    LemmaOperandBefore(r, s, q, k);
  }

  /** Where the parts of "then: ... ... end of conditional" stand. */
  lemma LemmaBranchesLayout(s: string, k: nat, t: string, e: string)
    requires P.At(s, k, "then: " + t + e + "end of conditional")
    ensures P.At(s, k, "then") && s[k + 4] == ':' && s[k + 5] == ' ' && P.At(s, k + 6, t)
    ensures P.At(s, k + 6 + |t|, e) && P.At(s, k + 6 + |t| + |e|, "end of conditional")
    ensures P.At(s, k + 6 + |t| + |e|, "end")
  {
    LemmaAtConcat(s, k, "then: " + t + e, "end of conditional");
    LemmaAtConcat(s, k, "then: " + t, e);
    LemmaAtConcat(s, k, "then: ", t);
    LemmaAtInfix(s, k, "then: ", 0, 4);
    assert "then: "[0..4] == "then";
    LemmaAtIndex(s, k, "then: ", 4);
    LemmaAtIndex(s, k, "then: ", 5);
    LemmaAtInfix(s, k + 6 + |t| + |e|, "end of conditional", 0, 3);
    assert "end of conditional"[0..3] == "end";
  }

  /** The same, with the then block at `d`, the else part at `b` and "end of conditional" at `c`. */
  lemma LemmaBranchesPlaces(s: string, k: nat, t: string, e: string, d: nat, b: nat, c: nat)
    requires t != [] && 'a' <= t[0] <= 'z' && (e == [] || (|e| >= 2 && e[0] == 'e' && e[1] == 'l'))
    requires P.At(s, k, "then: " + t + e + "end of conditional") && d == k + 6 && b == d + |t| && c == b + |e|
    ensures ColonAt(s, k, "then", d) && P.At(s, d, t) && P.At(s, b, e) && ItemsEnd(s, b)
    ensures P.At(s, c, "end") && P.At(s, c, "end of conditional")
  {
    LemmaBranchesLayout(s, k, t, e);
    LemmaAtIndex(s, d, t, 0);
    if e == [] {
      LemmaEndAt(s, b, "end");
    } else {
      LemmaEndAt(s, b, e);
    }
  }

  /** Where the parts of "else: ..." stand. */
  lemma LemmaElseLayout(s: string, b: nat, m: string)
    requires P.At(s, b, "else: " + m)
    ensures P.At(s, b, "else") && s[b + 4] == ':' && s[b + 5] == ' ' && P.At(s, b + 6, m)
  {
    LemmaAtConcat(s, b, "else: ", m);
    LemmaAtInfix(s, b, "else: ", 0, 4);
    assert "else: "[0..4] == "else";
    LemmaAtIndex(s, b, "else: ", 4);
    LemmaAtIndex(s, b, "else: ", 5);
  }

  /** The same, with the block at `d` and where it ends at `c`. */
  lemma LemmaElsePlaces(s: string, b: nat, m: string, d: nat, c: nat)
    requires m != [] && 'a' <= m[0] <= 'z' && P.At(s, b, "else: " + m) && d == b + 6 && c == d + |m| && P.At(s, c, "end")
    ensures ColonAt(s, b, "else", d) && P.At(s, d, m) && ItemsEnd(s, c)
  {
    LemmaElseLayout(s, b, m);
    LemmaAtIndex(s, d, m, 0);
    LemmaEndAt(s, c, "end");
  }

  /** "else: ..." followed by "end ..." is read as the else block. */
  lemma {:induction false} LemmaReadElse(fs: seq<Stmt>, s: string, b: nat, c: nat)
    requires fs != [] && CanonicalItems(fs)
    requires P.At(s, b, "else: " + ShowItems(fs)) && c == b + 6 + |ShowItems(fs)| && P.At(s, c, "end")
    ensures P.ElseBlock(s, b) == P.Match(Block(fs), c)
    decreases StmtsSize(fs), 7
  {
    var d := b + 6;
    LemmaItemsStart(fs);
    LemmaElsePlaces(s, b, ShowItems(fs), d, c);
    LemmaElseBlock(fs, s, b, d, c);
  }

  lemma {:induction false} LemmaElseBlock(fs: seq<Stmt>, s: string, b: nat, d: nat, c: nat)
    requires fs != [] && CanonicalItems(fs) && ColonAt(s, b, "else", d)
    requires P.At(s, d, ShowItems(fs)) && c == d + |ShowItems(fs)| && ItemsEnd(s, c)
    ensures P.ElseBlock(s, b) == P.Match(Block(fs), c)
    decreases StmtsSize(fs), 6
  {
    LemmaReadBlock(fs, s, d, c);
    LemmaElseSteps(s, b, d, Block(fs), c);
  }

  lemma {:induction false} LemmaElseSteps(s: string, b: nat, d: nat, f: Stmt, c: nat)
    requires ColonAt(s, b, "else", d) && P.Block(s, d) == Some(P.Match(f, c))
    ensures P.ElseBlock(s, b) == P.Match(f, c)
  {
    var n := b + 4;
    LemmaColonAt(s, b, "else", n, d);
    LemmaElseAt(s, b, n, d, f, c);
  }

  /** The else part of the branches' text, followed by "end ...". */
  lemma {:induction false} LemmaReadElseText(fs: seq<Stmt>, s: string, b: nat, c: nat)
    requires CanonicalItems(fs) && P.At(s, b, ElseText(fs)) && c == b + |ElseText(fs)| && P.At(s, c, "end")
    ensures P.ElseBlock(s, b) == P.Match(Block(fs), c)
    decreases StmtsSize(fs), 8
  {
    if fs == [] {
      assert ElseText(fs) == [];
      LemmaMiss(s, b, "end", P.Else);
      LemmaNoElseAt(s, b);
    } else {
      assert ElseText(fs) == "else: " + ShowItems(fs);
      LemmaReadElse(fs, s, b, c);
    }
  }

  /** The text of the two branches. */
  lemma LemmaBranchesShape(ts: seq<Stmt>, fs: seq<Stmt>)
    requires CanonicalItems(ts) && CanonicalItems(fs)
    ensures BranchesText(ts, fs) == "then: " + ShowItems(ts) + ElseText(fs) + "end of conditional"
    ensures |BranchesText(ts, fs)| == 24 + |ShowItems(ts)| + |ElseText(fs)|
    ensures ElseText(fs) == [] || (|ElseText(fs)| >= 2 && ElseText(fs)[0] == 'e' && ElseText(fs)[1] == 'l')
  {
  }

  /** The branches' text, followed by ". " or the end of the input, is read as the two blocks. */
  lemma {:induction false} LemmaReadBranches(ts: seq<Stmt>, fs: seq<Stmt>, s: string, k: nat, j: nat)
    requires ts != [] && CanonicalItems(ts) && CanonicalItems(fs)
    requires P.At(s, k, BranchesText(ts, fs)) && j == k + |BranchesText(ts, fs)| && StmtEnds(s, j)
    ensures P.Branches(s, k) == Some(P.Match((Block(ts), Block(fs)), j))
    decreases StmtsSize(ts) + StmtsSize(fs) + 2, 1
  {
    LemmaBranchesShape(ts, fs);
    LemmaBranchesText(ts, fs, s, k, ShowItems(ts), ElseText(fs), BranchesText(ts, fs), j);
  }

  lemma {:induction false} LemmaBranchesText(ts: seq<Stmt>, fs: seq<Stmt>, s: string, k: nat, t: string, e: string, u: string, j: nat)
    requires ts != [] && CanonicalItems(ts) && CanonicalItems(fs) && t == ShowItems(ts) && e == ElseText(fs)
    requires e == [] || (|e| >= 2 && e[0] == 'e' && e[1] == 'l')
    requires u == "then: " + t + e + "end of conditional" && |u| == 24 + |t| + |e|
    requires P.At(s, k, u) && j == k + |u| && StmtEnds(s, j)
    ensures P.Branches(s, k) == Some(P.Match((Block(ts), Block(fs)), j))
    decreases StmtsSize(ts) + StmtsSize(fs) + 2, 0
  {
    var d := k + 6;
    var b := d + |t|;
    var c := b + |e|;
    LemmaItemsStart(ts);
    LemmaBranchesPlaces(s, k, t, e, d, b, c);
    LemmaEndOfConditionalAt(s, c, j);
    LemmaThenBlockRead(ts, fs, s, k, d, b, c, j);
  }

  /** The then block, the else block and "end of conditional". */
  lemma {:induction false} LemmaThenBlockRead(ts: seq<Stmt>, fs: seq<Stmt>, s: string, k: nat, d: nat, b: nat, c: nat, j: nat)
    requires ts != [] && CanonicalItems(ts) && CanonicalItems(fs) && ColonAt(s, k, "then", d)
    requires P.At(s, d, ShowItems(ts)) && b == d + |ShowItems(ts)| && ItemsEnd(s, b)
    requires P.At(s, b, ElseText(fs)) && c == b + |ElseText(fs)| && P.At(s, c, "end")
    requires P.KeyPhrase(s, c, P.EndOfConditional) == Some(j)
    ensures P.Branches(s, k) == Some(P.Match((Block(ts), Block(fs)), j))
    decreases StmtsSize(ts) + StmtsSize(fs) + 1, 0
  {
    LemmaReadBlock(ts, s, d, b);
    LemmaElseEnd(fs, s, k, d, Block(ts), b, c, j);
  }

  lemma {:induction false} LemmaElseEnd(fs: seq<Stmt>, s: string, k: nat, d: nat, t: Stmt, b: nat, c: nat, j: nat)
    requires CanonicalItems(fs) && ColonAt(s, k, "then", d)
    requires d <= b <= |s| && P.Block(s, d) == Some(P.Match(t, b))
    requires P.At(s, b, ElseText(fs)) && c == b + |ElseText(fs)| && P.At(s, c, "end")
    requires P.KeyPhrase(s, c, P.EndOfConditional) == Some(j)
    ensures P.Branches(s, k) == Some(P.Match((t, Block(fs)), j))
    decreases StmtsSize(fs), 9
  {
    LemmaReadElseText(fs, s, b, c);
    LemmaBranchesEnd(s, k, d, t, b, Block(fs), c, j);
  }

  lemma {:induction false} LemmaBranchesEnd(s: string, k: nat, d: nat, t: Stmt, b: nat, f: Stmt, c: nat, j: nat)
    requires ColonAt(s, k, "then", d)
    requires b <= |s| && P.Block(s, d) == Some(P.Match(t, b)) && P.ElseBlock(s, b) == P.Match(f, c)
    requires c <= |s| && P.KeyPhrase(s, c, P.EndOfConditional) == Some(j)
    ensures P.Branches(s, k) == Some(P.Match((t, f), j))
  {
    LemmaConditionalEndAt(s, t, f, c, j);
    LemmaThenBlockAt(s, d, t, b, f, c, j);
    LemmaThenAt(s, k, d, P.Match((t, f), j));
  }

  lemma {:induction false} LemmaThenAt(s: string, k: nat, d: nat, m: P.Match<(Stmt, Stmt)>)
    requires ColonAt(s, k, "then", d) && P.ThenBlock(s, d) == Some(m)
    ensures P.Branches(s, k) == Some(m)
  {
    var n := k + 4;
    LemmaColonAt(s, k, "then", n, d);
    LemmaBlockBranchesAt(s, k, n, d, m);
    LemmaBranchesAt(s, k, m);
  }

  /** The text of a conditional in the block form. */
  lemma LemmaCondShape(st: Stmt)
    requires st.Cond? && Canonical(st)
    ensures st == Cond(st.cmp, st.left, st.right, Block(st.ifTrue.stmts), Block(st.ifFalse.stmts))
    ensures Printable(st.left) && Printable(st.right) && st.ifTrue.stmts != []
    ensures CanonicalItems(st.ifTrue.stmts) && CanonicalItems(st.ifFalse.stmts)
    ensures StmtsSize(st.ifTrue.stmts) + StmtsSize(st.ifFalse.stmts) + 2 < StmtSize(st)
    ensures ShowStmt(st) == Condition(st.cmp, st.left, st.right) + " " + BranchesText(st.ifTrue.stmts, st.ifFalse.stmts)
    ensures |ShowStmt(st)| == |Condition(st.cmp, st.left, st.right)| + 1 + |BranchesText(st.ifTrue.stmts, st.ifFalse.stmts)|
    ensures BranchesText(st.ifTrue.stmts, st.ifFalse.stmts)[..2] == "th"
  {
    LemmaBlockSize(st.ifTrue);
    LemmaBlockSize(st.ifFalse);
  }

  /** A conditional in the block form is read as that conditional. */
  lemma {:induction false} LemmaReadCond(st: Stmt, s: string, i: nat, j: nat)
    requires st.Cond? && Canonical(st)
    requires P.At(s, i, ShowStmt(st)) && j == i + |ShowStmt(st)| && StmtEnds(s, j)
    ensures P.Statement(s, i) == Some(P.Match(st, j))
    decreases StmtSize(st), 1
  {
    LemmaCondShape(st);
    var c := Condition(st.cmp, st.left, st.right);
    var k := i + |c| + 1;
    LemmaCondText(st.cmp, st.left, st.right, st.ifTrue.stmts, st.ifFalse.stmts, s, i, c,
      BranchesText(st.ifTrue.stmts, st.ifFalse.stmts), k, j);
  }

  lemma {:induction false} LemmaCondText(op: CmpOp, l: Expr, r: Expr, ts: seq<Stmt>, fs: seq<Stmt>, s: string, i: nat, c: string, b: string, k: nat, j: nat)
    requires Printable(l) && Printable(r) && c == Condition(op, l, r)
    requires ts != [] && CanonicalItems(ts) && CanonicalItems(fs) && b == BranchesText(ts, fs) && b[..2] == "th"
    requires P.At(s, i, c + " " + b) && k == i + |c| + 1 && j == k + |b| && StmtEnds(s, j)
    ensures P.Statement(s, i) == Some(P.Match(Cond(op, l, r, Block(ts), Block(fs)), j))
    decreases StmtsSize(ts) + StmtsSize(fs) + 2, 2
  {
    LemmaCondPlaces(s, i, c, b, k);
    LemmaReadBranches(ts, fs, s, k, j);
    LemmaCondition(op, l, r, Block(ts), Block(fs), s, i, k, j);
  }

  /** Where the condition and the branches stand. */
  lemma LemmaCondPlaces(s: string, i: nat, c: string, b: string, k: nat)
    requires |b| >= 2 && b[..2] == "th" && P.At(s, i, c + " " + b) && k == i + |c| + 1
    ensures P.At(s, i, c) && k < |s| && s[k - 1] == ' ' && s[k] != ' ' && NoOperatorAt(s, k) && P.At(s, k, b)
  {
    LemmaCondSplit(s, i, c, b);
    LemmaAtIndex(s, k, b, 0);
    LemmaNoOperatorBefore(s, k, b);
  }

  lemma LemmaCondSplit(s: string, i: nat, c: string, b: string)
    requires P.At(s, i, c + " " + b)
    ensures P.At(s, i, c) && s[i + |c|] == ' ' && P.At(s, i + |c| + 1, b)
  {
    LemmaAtConcat(s, i, c + " ", b);
    LemmaAtConcat(s, i, c, " ");
    LemmaAtIndex(s, i + |c|, " ", 0);
  }

  /** The condition, followed by one space and branches that are read. */
  lemma {:induction false} LemmaCondition(op: CmpOp, l: Expr, r: Expr, t: Stmt, f: Stmt, s: string, i: nat, k: nat, j: nat)
    requires Printable(l) && Printable(r)
    requires P.At(s, i, Condition(op, l, r)) && k == i + |Condition(op, l, r)| + 1
    requires k < |s| && s[k - 1] == ' ' && s[k] != ' ' && NoOperatorAt(s, k)
    requires P.Branches(s, k) == Some(P.Match((t, f), j))
    ensures P.Statement(s, i) == Some(P.Match(Cond(op, l, r, t, f), j))
  {
    var a := i + 3;
    var p := a + |Show(l)| + 1;
    var q := p + |CmpText(op)| + 1;
    LemmaShowStart(l);
    LemmaShowStart(r);
    LemmaConditionPlaces(s, i, Show(l), CmpText(op), Show(r), a, p, q, k);
    LemmaCmpStart(op, s, p);
    LemmaConditionRest(op, l, r, t, f, s, i, a, p, q, k, j);
  }

  /** Where the parts of the condition stand, with the first characters of the operands. */
  lemma LemmaConditionPlaces(s: string, i: nat, lt: string, ct: string, rt: string, a: nat, p: nat, q: nat, k: nat)
    requires lt != [] && lt[0] != ' ' && rt != [] && rt[0] != ' '
    requires P.At(s, i, "if " + lt + " " + ct + " " + rt)
    requires a == i + 3 && p == a + |lt| + 1 && q == p + |ct| + 1 && k == q + |rt| + 1
    ensures P.At(s, i, "if") && P.At(s, a, lt) && P.At(s, p, ct) && P.At(s, q, rt) && a < p < q < |s|
    ensures s[a - 1] == ' ' && s[a] != ' ' && s[p - 1] == ' ' && s[q - 1] == ' ' && s[q] != ' '
  {
    LemmaConditionLayout(s, i, lt, ct, rt);
    LemmaAtIndex(s, a, lt, 0);
    LemmaAtIndex(s, q, rt, 0);
  }

  /** The operands, the comparison and the branches. */
  lemma {:induction false} LemmaConditionRest(op: CmpOp, l: Expr, r: Expr, t: Stmt, f: Stmt, s: string, i: nat, a: nat, p: nat, q: nat, k: nat, j: nat)
    requires Printable(l) && Printable(r) && P.At(s, i, "if") && a == i + 3 && a < |s| && s[a - 1] == ' ' && s[a] != ' '
    requires P.At(s, a, Show(l)) && p == a + |Show(l)| + 1 && p < |s| && s[p - 1] == ' ' && s[p] != ' ' && NoOperatorAt(s, p)
    requires P.At(s, p, CmpText(op)) && q == p + |CmpText(op)| + 1 && q < |s| && s[q - 1] == ' ' && s[q] != ' '
    requires P.At(s, q, Show(r)) && k == q + |Show(r)| + 1 && k < |s| && s[k - 1] == ' ' && s[k] != ' '
    requires NoOperatorAt(s, k) && P.Branches(s, k) == Some(P.Match((t, f), j))
    ensures P.Statement(s, i) == Some(P.Match(Cond(op, l, r, t, f), j))
  {
    LemmaOperandBefore(l, s, a, p);
    LemmaCondOperands(op, l, r, t, f, s, i, a, p, q, k, j);
  }

  lemma {:induction false} LemmaCondOperands(op: CmpOp, l: Expr, r: Expr, t: Stmt, f: Stmt, s: string, i: nat, a: nat, p: nat, q: nat, k: nat, j: nat)
    requires Printable(r) && P.At(s, i, "if") && a == i + 3 && a <= p && a < |s| && s[a - 1] == ' ' && s[a] != ' '
    requires P.Expression(s, a) == Some(P.Match(l, p))
    requires P.At(s, p, CmpText(op)) && q == p + |CmpText(op)| + 1 && q < |s| && s[q - 1] == ' ' && s[q] != ' '
    requires P.At(s, q, Show(r)) && k == q + |Show(r)| + 1 && k < |s| && s[k - 1] == ' ' && s[k] != ' '
    requires NoOperatorAt(s, k) && P.Branches(s, k) == Some(P.Match((t, f), j))
    ensures P.Statement(s, i) == Some(P.Match(Cond(op, l, r, t, f), j))
  {
    LemmaRightOperand(op, r, s, p, q, k);
    LemmaCondRight(op, l, r, t, f, s, i, a, p, q, k, j);
  }

  lemma {:induction false} LemmaCondRight(op: CmpOp, l: Expr, r: Expr, t: Stmt, f: Stmt, s: string, i: nat, a: nat, p: nat, q: nat, k: nat, j: nat)
    requires P.At(s, i, "if") && a == i + 3 && a <= p <= q <= k < |s| && s[a - 1] == ' ' && s[a] != ' '
    requires P.Expression(s, a) == Some(P.Match(l, p))
    requires P.Comparison(s, p) == Some((op, q)) && P.Expression(s, q) == Some(P.Match(r, k))
    requires P.Branches(s, k) == Some(P.Match((t, f), j))
    ensures P.Statement(s, i) == Some(P.Match(Cond(op, l, r, t, f), j))
  {
    LemmaCondBranchesAt(s, op, l, r, k, t, f, j);
    LemmaComparingAt(s, l, p, op, q, r, k, P.Match(Cond(op, l, r, t, f), j));
    LemmaCondLeft(s, i, a, l, p, P.Match(Cond(op, l, r, t, f), j));
  }

  lemma {:induction false} LemmaCondLeft(s: string, i: nat, a: nat, l: Expr, p: nat, m: P.Match<Stmt>)
    requires P.At(s, i, "if") && a == i + 3 && a <= p <= |s| && a < |s| && s[a - 1] == ' ' && s[a] != ' '
    requires P.Expression(s, a) == Some(P.Match(l, p)) && P.Comparing(s, l, p) == Some(m)
    ensures P.Statement(s, i) == Some(m)
  {
    LemmaIfWords(s, i, a);
    LemmaCondIs(s, i, a, l, p, m);
  }

  lemma {:induction false} LemmaCondIs(s: string, i: nat, a: nat, l: Expr, p: nat, m: P.Match<Stmt>)
    requires i <= a <= p <= |s|
    requires P.Assignment(s, i) == None && P.KeyPhrase(s, i, P.IfWord) == Some(a)
    requires P.Expression(s, a) == Some(P.Match(l, p)) && P.Comparing(s, l, p) == Some(m)
    ensures P.Statement(s, i) == Some(m)
  {
    LemmaConditionalAt(s, i, a, l, p, m);
    LemmaStatementIsConditional(s, i, m);
  }

  // ------------------------------------------------ whole texts

  lemma {:induction false} LemmaStmtNormal(st: Stmt)
    requires Canonical(st)
    ensures P.Normal(ShowStmt(st))
    decreases StmtSize(st), 0
  {
    match st
    case Assign(x, e) =>
      LemmaShowNormal(e);
      LemmaNormalConcat("set ", x);
      LemmaNormalConcat("set " + x, " to ");
      LemmaNormalConcat("set " + x + " to ", Show(e));
    case Exit =>
    case Loop(b) =>
      LemmaBlockSize(b);
      LemmaItemsNormal(b.stmts);
      LemmaNormalConcat("loop: ", ShowItems(b.stmts));
      LemmaNormalConcat("loop: " + ShowItems(b.stmts), "end of loop");
    case Cond(op, l, r, t, f) =>
      LemmaBlockSize(t);
      LemmaBlockSize(f);
      LemmaItemsNormal(t.stmts);
      LemmaItemsNormal(f.stmts);
      LemmaCondNormal(op, l, r, t.stmts, f.stmts);
  }

  /** A conditional's text is normal when the texts of its two blocks are. */
  lemma LemmaCondNormal(op: CmpOp, l: Expr, r: Expr, ts: seq<Stmt>, fs: seq<Stmt>)
    requires Printable(l) && Printable(r) && CanonicalItems(ts) && CanonicalItems(fs)
    requires P.Normal(ShowItems(ts)) && P.Normal(ShowItems(fs))
    ensures P.Normal(Condition(op, l, r) + " " + BranchesText(ts, fs))
  {
    LemmaConditionNormal(op, l, r);
    if fs != [] {
      LemmaNormalConcat("else: ", ShowItems(fs));
    }
    LemmaBranchesNormal(ShowItems(ts), ElseText(fs));
    LemmaNormalConcat(Condition(op, l, r), " ");
    LemmaNormalConcat(Condition(op, l, r) + " ", BranchesText(ts, fs));
  }

  lemma {:induction false} LemmaItemsNormal(ss: seq<Stmt>)
    requires CanonicalItems(ss)
    ensures P.Normal(ShowItems(ss))
    decreases StmtsSize(ss), 1
  {
    if ss != [] {
      LemmaStmtNormal(ss[0]);
      LemmaItemsNormal(ss[1..]);
      LemmaNormalConcat(ShowStmt(ss[0]), ". ");
      LemmaNormalConcat(ShowStmt(ss[0]) + ". ", ShowItems(ss[1..]));
    }
  }

  lemma LemmaConditionNormal(op: CmpOp, l: Expr, r: Expr)
    requires Printable(l) && Printable(r)
    ensures P.Normal(Condition(op, l, r))
  {
    LemmaShowNormal(l);
    LemmaShowNormal(r);
    var c := CmpText(op);
    assert P.Normal(c);
    LemmaNormalConcat("if ", Show(l));
    LemmaNormalConcat("if " + Show(l), " ");
    LemmaNormalConcat("if " + Show(l) + " ", c);
    LemmaNormalConcat("if " + Show(l) + " " + c, " ");
    LemmaNormalConcat("if " + Show(l) + " " + c + " ", Show(r));
  }

  lemma LemmaBranchesNormal(t: string, e: string)
    requires P.Normal(t) && P.Normal(e)
    ensures P.Normal("then: " + t + e + "end of conditional")
  {
    LemmaNormalConcat("then: ", t);
    LemmaNormalConcat("then: " + t, e);
    LemmaNormalConcat("then: " + t + e, "end of conditional");
  }

  /** `parseProgram` reads the canonical text of a non-empty block back as that block. */
  lemma LemmaShowProgram(p: Stmt)
    requires p.Block? && p.stmts != [] && CanonicalItems(p.stmts)
    ensures P.ParseProgram(ShowProgram(p)) == Some(p)
  {
    var s := ShowProgram(p);
    LemmaItemsNormal(p.stmts);
    P.LemmaNormalizeFixes(s);
    LemmaItemsStart(p.stmts);
    LemmaNoSpace(s, 0);
    assert P.At(s, 0, s);
    LemmaReadItems(p.stmts, s, 0, |s|);
  }

  /** `parseStatement` reads the canonical text of a statement back as that statement. */
  lemma LemmaShowStatement(st: Stmt)
    requires Canonical(st)
    ensures P.ParseStatement(ShowStmt(st)) == Some(st)
  {
    var s := ShowStmt(st);
    LemmaStmtNormal(st);
    P.LemmaNormalizeFixes(s);
    assert P.At(s, 0, s);
    LemmaReadStmt(st, s, 0, |s|);
  }
}
