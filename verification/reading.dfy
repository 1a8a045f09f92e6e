/**
 * What each grammar rule reads from a position where known text stands: the steps from which
 * whole parses are put together. Positions are abstract; `At(s, i, t)` says what is there.
 */
module Reading {
  import opened Wrappers
  import Ast
  import Text
  import opened Parser

  // ------------------------------------------------ text at a position

  lemma LemmaAtConcat(s: string, i: nat, a: string, b: string)
    ensures At(s, i, a + b) <==> At(s, i, a) && At(s, i + |a|, b)
  {
    if At(s, i, a) && At(s, i + |a|, b) {
      forall k | 0 <= k < |a + b| ensures s[i + k] == (a + b)[k] {
        if k >= |a| {
          assert s[i + |a| + (k - |a|)] == b[k - |a|];
        }
      }
    }
    if At(s, i, a + b) {
      forall k | 0 <= k < |a| ensures s[i + k] == a[k] {
        assert (a + b)[k] == a[k];
      }
      forall k | 0 <= k < |b| ensures s[i + |a| + k] == b[k] {
        assert (a + b)[|a| + k] == b[k];
      }
    }
  }

  lemma LemmaAtIndex(s: string, i: nat, t: string, k: nat)
    requires At(s, i, t) && k < |t|
    ensures s[i + k] == t[k]
  {
  }

  lemma LemmaAtSlice(s: string, i: nat, t: string)
    requires At(s, i, t)
    ensures s[i..i + |t|] == t
  {
    forall k | 0 <= k < |t| ensures s[i..i + |t|][k] == t[k] {
    }
  }

  /** Text that differs from `w` at some index is not where `w` stands. */
  lemma LemmaNotAt(s: string, i: nat, t: string, w: string, k: nat)
    requires At(s, i, t) && k < |t| && k < |w| && t[k] != w[k]
    ensures !At(s, i, w)
  {
    LemmaAtIndex(s, i, t, k);
    if At(s, i, w) {
      LemmaAtIndex(s, i, w, k);
    }
  }

  // ------------------------------------------------ runs and spaces

  lemma {:induction false} LemmaRunEndAt(s: string, i: nat, j: nat, p: char -> bool)
    requires i <= j <= |s|
    requires forall k :: i <= k < j ==> p(s[k])
    requires j == |s| || !p(s[j])
    ensures RunEnd(s, i, p) == j
    decreases j - i
  {
    if i < j {
      LemmaRunEndAt(s, i + 1, j, p);
    }
  }

  lemma LemmaNoSpace(s: string, j: nat)
    requires j <= |s| && (j == |s| || s[j] != ' ')
    ensures OptionalSpace(s, j) == j
  {
  }

  lemma LemmaOneSpace(s: string, j: nat)
    requires j < |s| && s[j] == ' ' && (j + 1 == |s| || s[j + 1] != ' ')
    ensures OptionalSpace(s, j) == j + 1
  {
    LemmaRunEndAt(s, j, j + 1, IsBlank);
  }

  // ------------------------------------------------ key phrases

  /** A key phrase written with single spaces between its words. */
  function Phrase(words: seq<string>): (t: string)
    requires words != []
    ensures |t| >= |words[0]| && t[..|words[0]|] == words[0]
  {
    if |words| == 1 then words[0] else words[0] + " " + Phrase(words[1..])
  }

  /** A word of a key phrase: not empty and not starting with a space. */
  predicate Word(w: string)
  {
    w != [] && w[0] != ' '
  }

  /** A key phrase standing in the text, with single spaces, is matched through its last word and the spaces after it. */
  lemma {:induction false} LemmaKeyPhraseAt(s: string, i: nat, words: seq<string>)
    requires words != [] && forall k :: 0 <= k < |words| ==> Word(words[k])
    requires At(s, i, Phrase(words))
    ensures KeyPhrase(s, i, words) == Some(OptionalSpace(s, i + |Phrase(words)|))
    decreases |words|
  {
    var w := words[0];
    if |words| == 1 {
      assert KeyPhrase(s, i, words) == KeyPhrase(s, OptionalSpace(s, i + |w|), words[1..]);
    } else {
      LemmaPhraseStep(s, i, words);
      LemmaKeyPhraseAt(s, i + |w| + 1, words[1..]);
    }
  }

  /** The first word of a phrase of several, and the single space after it. */
  lemma LemmaPhraseStep(s: string, i: nat, words: seq<string>)
    requires |words| > 1 && forall k :: 0 <= k < |words| ==> Word(words[k])
    requires At(s, i, Phrase(words))
    ensures forall k :: 0 <= k < |words[1..]| ==> Word(words[1..][k])
    ensures At(s, i + |words[0]| + 1, Phrase(words[1..]))
    ensures |Phrase(words)| == |words[0]| + 1 + |Phrase(words[1..])|
    ensures KeyPhrase(s, i, words) == KeyPhrase(s, i + |words[0]| + 1, words[1..])
  {
    var w, rest := words[0], Phrase(words[1..]);
    assert forall k :: 0 <= k < |words[1..]| ==> words[1..][k] == words[k + 1];
    LemmaAtConcat(s, i, w + " ", rest);
    LemmaAtConcat(s, i, w, " ");
    LemmaAtIndex(s, i + |w|, " ", 0);
    LemmaAtIndex(s, i + |w| + 1, rest, 0);
    assert rest[0] == words[1][0];
    LemmaOneSpace(s, i + |w|);
  }

  // ------------------------------------------------ any amount of space

  /** `n` spaces. */
  function Spaces(n: nat): (t: string)
    ensures |t| == n && forall k :: 0 <= k < n ==> t[k] == ' '
  {
    seq(n, _ => ' ')
  }

  /** A run of exactly `n` spaces, not followed by another, is what `OptionalSpace` skips. */
  lemma LemmaSpacesAt(s: string, j: nat, n: nat)
    requires At(s, j, Spaces(n)) && (j + n == |s| || s[j + n] != ' ')
    ensures OptionalSpace(s, j) == j + n
  {
    forall k | j <= k < j + n ensures IsBlank(s[k]) {
      LemmaAtIndex(s, j, Spaces(n), k - j);
    }
    LemmaRunEndAt(s, j, j + n, IsBlank);
  }

  /** The words of a key phrase, each followed by its own number of spaces, possibly none. */
  function SpacedPhrase(words: seq<string>, gaps: seq<nat>): (t: string)
    requires |gaps| == |words|
    ensures words != [] ==> |t| >= |words[0]| && t[..|words[0]|] == words[0]
  {
    if words == [] then "" else words[0] + Spaces(gaps[0]) + SpacedPhrase(words[1..], gaps[1..])
  }

  /**
   * A key phrase matches whatever number of spaces, none included, stands between and after
   * its words, and it ends where the spaces after its last word end.
   */
  lemma {:induction false} LemmaKeyPhraseSpaced(s: string, i: nat, words: seq<string>, gaps: seq<nat>)
    requires |gaps| == |words| && forall k :: 0 <= k < |words| ==> Word(words[k])
    requires At(s, i, SpacedPhrase(words, gaps))
    requires i + |SpacedPhrase(words, gaps)| == |s| || s[i + |SpacedPhrase(words, gaps)|] != ' '
    ensures KeyPhrase(s, i, words) == Some(i + |SpacedPhrase(words, gaps)|)
    decreases |words|
  {
    if words != [] {
      var w, g, rest := words[0], gaps[0], SpacedPhrase(words[1..], gaps[1..]);
      assert SpacedPhrase(words, gaps) == w + Spaces(g) + rest;
      LemmaAtConcat(s, i, w + Spaces(g), rest);
      LemmaAtConcat(s, i, w, Spaces(g));
      assert forall k :: 0 <= k < |words[1..]| ==> words[1..][k] == words[k + 1];
      if words[1..] != [] {
        LemmaAtIndex(s, i + |w| + g, rest, 0);
        assert rest[0] == words[1][0];
      }
      LemmaSpacesAt(s, i + |w|, g);
      LemmaKeyPhraseSpaced(s, i + |w| + g, words[1..], gaps[1..]);
    }
  }

  /** `OptionalSurroundingSpace(c)` matches any number of spaces, none included, on either side of `c`. */
  lemma LemmaSurroundedSpaced(s: string, i: nat, c: char, before: nat, after: nat)
    requires c != ' '
    requires At(s, i, Spaces(before) + [c] + Spaces(after))
    requires i + before + 1 + after == |s| || s[i + before + 1 + after] != ' '
    ensures Surrounded(s, i, c) == Some(i + before + 1 + after)
  {
    LemmaAtConcat(s, i, Spaces(before) + [c], Spaces(after));
    LemmaAtConcat(s, i, Spaces(before), [c]);
    LemmaAtIndex(s, i + before, [c], 0);
    LemmaSpacesAt(s, i, before);
    LemmaSpacesAt(s, i + before + 1, after);
  }

  /** A key phrase whose first word is not where it would start does not match. */
  lemma LemmaKeyPhraseMiss(s: string, i: nat, words: seq<string>, t: string, k: nat)
    requires i <= |s| && words != []
    requires At(s, i, t) && k < |t| && k < |words[0]| && t[k] != words[0][k]
    ensures KeyPhrase(s, i, words) == None
  {
    LemmaNotAt(s, i, t, words[0], k);
  }

  /** At the end of the input no key phrase matches. */
  lemma LemmaKeyPhraseAtEnd(s: string, words: seq<string>)
    requires words != [] && words[0] != []
    ensures KeyPhrase(s, |s|, words) == None
  {
  }

  // ------------------------------------------------ numbers and names

  /** The text of a number: an optional '-', the whole digits, and '.' with the fraction digits if there are any. */
  function Numeral(negative: bool, whole: string, frac: string): string
  {
    (if negative then "-" else "") + whole + (if frac == [] then "" else "." + frac)
  }

  /** Where a number's digits end: no further digit, and no '.' followed by a digit. */
  predicate NumberEnds(s: string, j: nat)
  {
    j <= |s| && (j == |s| || (!Text.IsDigit(s[j]) && !(s[j] == '.' && j + 1 < |s| && Text.IsDigit(s[j + 1]))))
  }

  lemma LemmaNumberAt(s: string, i: nat, negative: bool, whole: string, frac: string)
    requires whole != [] && Text.AllDigits(whole) && Text.AllDigits(frac)
    requires At(s, i, Numeral(negative, whole, frac))
    requires NumberEnds(s, i + |Numeral(negative, whole, frac)|)
    ensures Number(s, i) == Some(Match(Ast.Const(NumberValue(negative, whole, frac)), OptionalSpace(s, i + |Numeral(negative, whole, frac)|)))
  {
    var a := if negative then i + 1 else i;
    var b := a + |whole|;
    var c := i + |Numeral(negative, whole, frac)|;
    LemmaNumberLayout(s, i, negative, whole, frac);
    LemmaDigitsAt(s, a, whole);
    LemmaFractionAt(s, b, frac);
    LemmaNumberFinish(s, i, negative, whole, frac, a, b, c);
  }

  /** Where the sign, the whole digits and the fraction of a number standing at `i` lie. */
  lemma LemmaNumberLayout(s: string, i: nat, negative: bool, whole: string, frac: string)
    requires whole != [] && Text.AllDigits(whole)
    requires At(s, i, Numeral(negative, whole, frac))
    requires NumberEnds(s, i + |Numeral(negative, whole, frac)|)
    ensures var a := if negative then i + 1 else i;
      SignEnd(s, i) == a && At(s, a, whole) &&
      At(s, a + |whole|, if frac == [] then "" else "." + frac) &&
      i + |Numeral(negative, whole, frac)| == a + |whole| + |if frac == [] then "" else "." + frac| &&
      (a + |whole| == |s| || !Text.IsDigit(s[a + |whole|]))
  {
    var sign := if negative then "-" else "";
    var tail := if frac == [] then "" else "." + frac;
    var a := i + |sign|;
    var b := a + |whole|;
    LemmaAtConcat(s, i, sign + whole, tail);
    LemmaAtConcat(s, i, sign, whole);
    if negative {
      LemmaAtIndex(s, i, sign, 0);
    } else {
      LemmaAtIndex(s, i, whole, 0);
    }
    if frac != [] {
      LemmaAtIndex(s, b, tail, 0);
    }
  }

  lemma LemmaNumberFinish(s: string, i: nat, negative: bool, whole: string, frac: string, a: nat, b: nat, c: nat)
    requires Text.AllDigits(whole) && Text.AllDigits(frac)
    requires i <= |s| && SignEnd(s, i) == a && (a > i) == negative
    requires RunEnd(s, a, Text.IsDigit) == b && b != a && s[a..b] == whole
    requires FractionEnd(s, b) == c && (if c == b then "" else s[b + 1..c]) == frac
    ensures Number(s, i) == Some(Match(Ast.Const(NumberValue(negative, whole, frac)), OptionalSpace(s, c)))
  {
    LemmaNumberParts(s, i, a, b, c);
  }

  /** The optional fraction of a number, read where it stands. */
  lemma LemmaFractionAt(s: string, b: nat, frac: string)
    requires Text.AllDigits(frac)
    requires At(s, b, if frac == [] then "" else "." + frac)
    requires NumberEnds(s, b + |if frac == [] then "" else "." + frac|)
    ensures FractionEnd(s, b) == b + |if frac == [] then "" else "." + frac|
    ensures FractionEnd(s, b) > b ==> s[b + 1..FractionEnd(s, b)] == frac
    ensures FractionEnd(s, b) == b ==> frac == []
  {
    if frac == [] {
      if b < |s| && s[b] == '.' {
        LemmaRunEndAt(s, b + 1, b + 1, Text.IsDigit);
      }
    } else {
      LemmaAtConcat(s, b, ".", frac);
      LemmaAtIndex(s, b, ".", 0);
      LemmaDigitsAt(s, b + 1, frac);
    }
  }

  /** `Number` assembled from where its sign, whole digits and fraction end. */
  lemma LemmaNumberParts(s: string, i: nat, a: nat, b: nat, c: nat)
    requires i <= |s| && SignEnd(s, i) == a && RunEnd(s, a, Text.IsDigit) == b && b != a && FractionEnd(s, b) == c
    ensures Text.AllDigits(s[a..b]) && (c > b ==> Text.AllDigits(s[b + 1..c]))
    ensures Number(s, i) == Some(Match(Ast.Const(NumberValue(a > i, s[a..b], if c == b then "" else s[b + 1..c])), OptionalSpace(s, c)))
  {
    LemmaRunDigits(s, a);
    if c > b {
      LemmaRunDigits(s, b + 1);
    }
  }

  /** Digits standing at `i` are one run, read back as themselves. */
  lemma LemmaDigitsAt(s: string, i: nat, digits: string)
    requires digits != [] && Text.AllDigits(digits) && At(s, i, digits)
    requires i + |digits| == |s| || !Text.IsDigit(s[i + |digits|])
    ensures RunEnd(s, i, Text.IsDigit) == i + |digits|
    ensures s[i..i + |digits|] == digits && Text.IsDigit(s[i])
  {
    forall k | i <= k < i + |digits| ensures Text.IsDigit(s[k]) {
      LemmaAtIndex(s, i, digits, k - i);
    }
    LemmaRunEndAt(s, i, i + |digits|, Text.IsDigit);
  }

  /** A lower-case Wordy name: letters a to z and '_'. */
  predicate LowerName(x: string)
  {
    |x| > 0 && forall k :: 0 <= k < |x| ==> 'a' <= x[k] <= 'z' || x[k] == '_'
  }

  /** Where a name ends: no further name character. */
  predicate NameEnds(s: string, j: nat)
  {
    j <= |s| && (j == |s| || !NameChar(s[j]))
  }

  lemma LemmaVariableAt(s: string, i: nat, x: string)
    requires LowerName(x) && At(s, i, x) && NameEnds(s, i + |x|)
    ensures Variable(s, i) == Some(Match(x, OptionalSpace(s, i + |x|)))
    ensures Atom(s, i) == Some(Match(Ast.Var(x), OptionalSpace(s, i + |x|)))
  {
    forall k | i <= k < i + |x| ensures NameChar(s[k]) {
      LemmaAtIndex(s, i, x, k - i);
    }
    LemmaRunEndAt(s, i, i + |x|, NameChar);
    LemmaAtSlice(s, i, x);
    LemmaAtIndex(s, i, x, 0);
  }

  // ------------------------------------------------ operands

  /** No operator word starts at `k`: every loop of the expression rules stops there. */
  predicate NoOperatorAt(s: string, k: nat)
  {
    k <= |s| &&
    !At(s, k, "plus") && !At(s, k, "minus") && !At(s, k, "times") &&
    !At(s, k, "divided") && !At(s, k, "to") && !At(s, k, "squared")
  }

  /** Text whose first two characters begin no operator word. */
  lemma LemmaNoOperatorBefore(s: string, k: nat, t: string)
    requires At(s, k, t) && |t| >= 2
    requires t[..2] != "pl" && t[..2] != "mi" && t[..2] != "ti" && t[..2] != "di" && t[..2] != "to" && t[..2] != "sq"
    ensures NoOperatorAt(s, k)
  {
    var ws: seq<string> := ["plus", "minus", "times", "divided", "to", "squared"];
    forall w | w in ws ensures !At(s, k, w) {
      if t[0] != w[0] {
        LemmaNotAt(s, k, t, w, 0);
      } else {
        LemmaNotAt(s, k, t, w, 1);
      }
    }
  }

  lemma LemmaNoOperatorAtEnd(s: string)
    ensures NoOperatorAt(s, |s|)
  {
  }

  lemma LemmaRestsStop(s: string, k: nat, acc: Ast.Expr)
    requires NoOperatorAt(s, k) && ExprNamesFrom(acc, s)
    ensures ExponentialRest(s, k, acc) == Match(acc, k)
    ensures MultiplicativeRest(s, k, acc) == Match(acc, k)
    ensures AdditiveRest(s, k, acc) == Match(acc, k)
  {
  }

  /** An atom with no operator after it is a whole expression at every level of the grammar. */
  lemma LemmaOperand(s: string, i: nat, e: Ast.Expr, k: nat)
    requires i <= |s| && Atom(s, i) == Some(Match(e, k)) && NoOperatorAt(s, k)
    ensures Exponential(s, i) == Some(Match(e, k))
    ensures Multiplicative(s, i) == Some(Match(e, k))
    ensures Expression(s, i) == Some(Match(e, k))
  {
    LemmaRestsStop(s, k, e);
  }

  /** An exponential operand with no multiplicative or additive operator after it. */
  lemma LemmaFactor(s: string, i: nat, e: Ast.Expr, k: nat)
    requires i <= |s| && Exponential(s, i) == Some(Match(e, k)) && NoOperatorAt(s, k)
    ensures Multiplicative(s, i) == Some(Match(e, k))
    ensures Expression(s, i) == Some(Match(e, k))
  {
    LemmaRestsStop(s, k, e);
  }

  /** A multiplicative operand with no additive operator after it. */
  lemma LemmaTerm(s: string, i: nat, e: Ast.Expr, k: nat)
    requires i <= |s| && Multiplicative(s, i) == Some(Match(e, k)) && NoOperatorAt(s, k)
    ensures Expression(s, i) == Some(Match(e, k))
  {
    LemmaRestsStop(s, k, e);
  }

  /** An atom and the rest of its exponential loop make an exponential operand. */
  lemma LemmaExponentialFrom(s: string, i: nat, e: Ast.Expr, k: nat, r: Ast.Expr, c: nat)
    requires i <= |s| && Atom(s, i) == Some(Match(e, k)) && ExponentialRest(s, k, e) == Match(r, c)
    ensures Exponential(s, i) == Some(Match(r, c))
  {
  }

  /** Where neither "to the power of" nor "squared" follows, an exponential operand ends. */
  lemma LemmaExponentialStops(s: string, k: nat, acc: Ast.Expr)
    requires k <= |s| && ExprNamesFrom(acc, s)
    requires KeyPhrase(s, k, PowerOf) == None && KeyPhrase(s, k, Squared) == None
    ensures ExponentialRest(s, k, acc) == Match(acc, k)
  {
  }

  /** Where neither "times" nor "divided by" follows, a multiplicative operand ends. */
  lemma LemmaMultiplicativeStops(s: string, k: nat, acc: Ast.Expr)
    requires k <= |s| && ExprNamesFrom(acc, s)
    requires KeyPhrase(s, k, Times) == None && KeyPhrase(s, k, DividedBy) == None
    ensures MultiplicativeRest(s, k, acc) == Match(acc, k)
  {
  }

  /** One multiplicative operator and its right operand, after which nothing more joins. */
  lemma LemmaMultiplicativeStep(s: string, k: nat, acc: Ast.Expr, op: Ast.BinOp, q: nat, r: Ast.Expr, c: nat)
    requires k <= |s| && ExprNamesFrom(acc, s)
    requires MultiplicativeOp(s, k) == Some((op, q)) && Exponential(s, q) == Some(Match(r, c)) && NoOperatorAt(s, c)
    ensures MultiplicativeRest(s, k, acc) == Match(Ast.Bin(op, acc, r), c)
  {
    LemmaRestsStop(s, c, Ast.Bin(op, acc, r));
  }

  /** One additive operator and its right operand, after which nothing more joins. */
  lemma LemmaAdditiveStep(s: string, k: nat, acc: Ast.Expr, op: Ast.BinOp, q: nat, r: Ast.Expr, c: nat)
    requires k <= |s| && ExprNamesFrom(acc, s)
    requires AdditiveOp(s, k) == Some((op, q)) && Multiplicative(s, q) == Some(Match(r, c)) && NoOperatorAt(s, c)
    ensures AdditiveRest(s, k, acc) == Match(Ast.Bin(op, acc, r), c)
  {
    LemmaRestsStop(s, c, Ast.Bin(op, acc, r));
  }

  /** One additive operator and its right operand, after which the loop goes on. */
  lemma LemmaAdditiveMore(s: string, k: nat, acc: Ast.Expr, op: Ast.BinOp, q: nat, r: Ast.Expr, c: nat)
    requires k <= |s| && ExprNamesFrom(acc, s)
    requires AdditiveOp(s, k) == Some((op, q)) && Multiplicative(s, q) == Some(Match(r, c))
    ensures ExprNamesFrom(Ast.Bin(op, acc, r), s) && AdditiveRest(s, k, acc) == AdditiveRest(s, c, Ast.Bin(op, acc, r))
  {
  }

  /** One multiplicative operator and its right operand, after which the loop goes on. */
  lemma LemmaMultiplicativeMore(s: string, k: nat, acc: Ast.Expr, op: Ast.BinOp, q: nat, r: Ast.Expr, c: nat)
    requires k <= |s| && ExprNamesFrom(acc, s)
    requires MultiplicativeOp(s, k) == Some((op, q)) && Exponential(s, q) == Some(Match(r, c))
    ensures ExprNamesFrom(Ast.Bin(op, acc, r), s) && MultiplicativeRest(s, k, acc) == MultiplicativeRest(s, c, Ast.Bin(op, acc, r))
  {
  }

  /** "squared" where "to the power of" does not stand squares the operand read so far, and the loop goes on. */
  lemma LemmaSquaredMore(s: string, k: nat, acc: Ast.Expr, q: nat)
    requires k <= |s| && ExprNamesFrom(acc, s)
    requires KeyPhrase(s, k, PowerOf) == None && KeyPhrase(s, k, Squared) == Some(q)
    ensures ExprNamesFrom(Ast.Bin(Ast.Exponentiation, acc, Ast.Const(2.0)), s)
    ensures ExponentialRest(s, k, acc) == ExponentialRest(s, q, Ast.Bin(Ast.Exponentiation, acc, Ast.Const(2.0)))
  {
  }

  /** One "to the power of" and its right operand, after which the loop goes on. */
  lemma LemmaPowerMore(s: string, k: nat, acc: Ast.Expr, q: nat, r: Ast.Expr, c: nat)
    requires k <= |s| && ExprNamesFrom(acc, s)
    requires KeyPhrase(s, k, PowerOf) == Some(q) && Exponential(s, q) == Some(Match(r, c))
    ensures ExprNamesFrom(Ast.Bin(Ast.Exponentiation, acc, r), s)
    ensures ExponentialRest(s, k, acc) == ExponentialRest(s, c, Ast.Bin(Ast.Exponentiation, acc, r))
  {
  }

  /** One "to the power of" and its right operand, after which nothing more joins. */
  lemma LemmaPowerStep(s: string, k: nat, acc: Ast.Expr, q: nat, r: Ast.Expr, c: nat)
    requires k <= |s| && ExprNamesFrom(acc, s)
    requires KeyPhrase(s, k, PowerOf) == Some(q) && Exponential(s, q) == Some(Match(r, c)) && NoOperatorAt(s, c)
    ensures ExponentialRest(s, k, acc) == Match(Ast.Bin(Ast.Exponentiation, acc, r), c)
  {
    LemmaRestsStop(s, c, Ast.Bin(Ast.Exponentiation, acc, r));
  }

  /** A character that is not a lower-case letter begins no operator word. */
  lemma LemmaNoOperatorAtChar(s: string, k: nat)
    requires k == |s| || (k < |s| && !('a' <= s[k] <= 'z'))
    ensures NoOperatorAt(s, k)
  {
    var ws: seq<string> := ["plus", "minus", "times", "divided", "to", "squared"];
    forall w | w in ws ensures !At(s, k, w) {
      if At(s, k, w) {
        LemmaAtIndex(s, k, w, 0);
      }
    }
  }

  /** A phrase whose first word differs from the text at one character does not match. */
  lemma LemmaCharMiss(s: string, i: nat, words: seq<string>, k: nat)
    requires i <= |s| && words != [] && k < |words[0]| && i + k < |s| && s[i + k] != words[0][k]
    ensures KeyPhrase(s, i, words) == None
  {
  }

  /** A key phrase is not where text differing from its first word in the first or second character stands. */
  lemma LemmaMiss(s: string, i: nat, t: string, words: seq<string>)
    requires i <= |s| && At(s, i, t) && t != [] && words != [] && words[0] != []
    requires t[0] != words[0][0] || (|t| > 1 && |words[0]| > 1 && t[1] != words[0][1])
    ensures KeyPhrase(s, i, words) == None
  {
    if t[0] != words[0][0] {
      LemmaNotAt(s, i, t, words[0], 0);
    } else {
      LemmaNotAt(s, i, t, words[0], 1);
    }
  }
}
