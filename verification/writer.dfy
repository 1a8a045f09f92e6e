/**
 * `PrintWriter` output as a list of calls, and `IndentingPrintWriter`, which puts a fixed prefix
 * in front of the first write after construction and after every `println(String)`.
 *
 * `print(s)` reaches the overridden `write(s, off, len)`; `println(s)` is `print(s)` followed by
 * a line separator written straight to the wrapped writer, and then sets the pending flag; the
 * argument-less `println()` writes only the separator and leaves the flag alone.
 */
module Writer {
  import Text
  /** One call on the writer. The line separator is written as "\n". */
  datatype Op = Print(s: string) | PrintLine(s: string) | NewLine

  /** The text a plain `PrintWriter` produces. */
  function Plain(ops: seq<Op>): string
  {
    if ops == [] then "" else Emitted(ops[0]) + Plain(ops[1..])
  }

  /** The text of one call on a plain writer. */
  function Emitted(op: Op): string
  {
    match op
    case Print(s) => s
    case PrintLine(s) => s + "\n"
    case NewLine => "\n"
  }

  /** Whether the call goes through the overridden `write`, which may emit the prefix. */
  predicate Writes(op: Op)
  {
    !op.NewLine?
  }

  /** The `indentPending` flag after one call. */
  function PendingAfterOne(op: Op, pending: bool): bool
  {
    match op
    case Print(_) => false
    case PrintLine(_) => true
    case NewLine => pending
  }

  /** The `indentPending` flag after a list of calls. */
  function PendingAfter(ops: seq<Op>, pending: bool): bool
  {
    if ops == [] then pending else PendingAfter(ops[1..], PendingAfterOne(ops[0], pending))
  }

  /** The text an `IndentingPrintWriter` with `linePrefix == prefix` produces. */
  function Indented(prefix: string, ops: seq<Op>, pending: bool): string
  {
    if ops == [] then ""
    else
      (if pending && Writes(ops[0]) then prefix else "") + Emitted(ops[0])
        + Indented(prefix, ops[1..], PendingAfterOne(ops[0], pending))
  }

  /** How many times the prefix is emitted. */
  function PrefixCount(ops: seq<Op>, pending: bool): nat
  {
    if ops == [] then 0
    else (if pending && Writes(ops[0]) then 1 else 0) + PrefixCount(ops[1..], PendingAfterOne(ops[0], pending))
  }

  /** How many `println(String)` calls there are. */
  function PrintLineCount(ops: seq<Op>): nat
  {
    if ops == [] then 0 else (if ops[0].PrintLine? then 1 else 0) + PrintLineCount(ops[1..])
  }

  // ------------------------------------------------ properties

  /** Output for consecutive lists of calls is the concatenation, the flag carried across. */
  lemma LemmaIndentedAppend(prefix: string, a: seq<Op>, b: seq<Op>, pending: bool)
    ensures Indented(prefix, a + b, pending) ==
      Indented(prefix, a, pending) + Indented(prefix, b, PendingAfter(a, pending))
    ensures PendingAfter(a + b, pending) == PendingAfter(b, PendingAfter(a, pending))
    ensures PrefixCount(a + b, pending) == PrefixCount(a, pending) + PrefixCount(b, PendingAfter(a, pending))
  {
    LemmaTextAppend(prefix, a, b, pending);
    LemmaPendingAppend(a, b, pending);
    LemmaCountAppend(a, b, pending);
  }

  lemma {:induction false} LemmaTextAppend(prefix: string, a: seq<Op>, b: seq<Op>, pending: bool)
    ensures Indented(prefix, a + b, pending) ==
      Indented(prefix, a, pending) + Indented(prefix, b, PendingAfter(a, pending))
    decreases |a|
  {
    if a != [] {
      assert (a + b)[0] == a[0];
      assert (a + b)[1..] == a[1..] + b;
      var next := PendingAfterOne(a[0], pending);
      var head := (if pending && Writes(a[0]) then prefix else "") + Emitted(a[0]);
      LemmaTextAppend(prefix, a[1..], b, next);
      var x := Indented(prefix, a[1..], next);
      var y := Indented(prefix, b, PendingAfter(a[1..], next));
      assert Indented(prefix, a + b, pending) == head + (x + y);
      assert Indented(prefix, a, pending) == head + x;
      LemmaAssoc(head, x, y);
    } else {
      assert a + b == b;
    }
  }

  lemma LemmaAssoc(x: string, y: string, z: string)
    ensures x + (y + z) == x + y + z
  {
  }

  lemma {:induction false} LemmaPendingAppend(a: seq<Op>, b: seq<Op>, pending: bool)
    ensures PendingAfter(a + b, pending) == PendingAfter(b, PendingAfter(a, pending))
    decreases |a|
  {
    if a != [] {
      assert (a + b)[0] == a[0];
      assert (a + b)[1..] == a[1..] + b;
      LemmaPendingAppend(a[1..], b, PendingAfterOne(a[0], pending));
    } else {
      assert a + b == b;
    }
  }

  lemma {:induction false} LemmaCountAppend(a: seq<Op>, b: seq<Op>, pending: bool)
    ensures PrefixCount(a + b, pending) == PrefixCount(a, pending) + PrefixCount(b, PendingAfter(a, pending))
    decreases |a|
  {
    if a != [] {
      assert (a + b)[0] == a[0];
      assert (a + b)[1..] == a[1..] + b;
      LemmaCountAppend(a[1..], b, PendingAfterOne(a[0], pending));
    } else {
      assert a + b == b;
    }
  }

  lemma {:induction false} LemmaPlainAppend(a: seq<Op>, b: seq<Op>)
    ensures Plain(a + b) == Plain(a) + Plain(b)
    decreases |a|
  {
    if a != [] {
      assert (a + b)[0] == a[0];
      assert (a + b)[1..] == a[1..] + b;
      LemmaPlainAppend(a[1..], b);
    } else {
      assert a + b == b;
    }
  }

  /** The very first write is preceded by the prefix: the flag starts out set. */
  lemma LemmaFirstWrite(prefix: string, s: string, rest: seq<Op>)
    ensures Text.StartsWith(Indented(prefix, [Print(s)] + rest, true), prefix + s)
  {
    var out := Indented(prefix, [Print(s)] + rest, true);
    assert ([Print(s)] + rest)[1..] == rest;
    assert out == prefix + s + Indented(prefix, rest, false);
    assert out[..|prefix + s|] == prefix + s;
  }

  /** A write that follows `println(String)` is preceded by the prefix. */
  lemma LemmaWriteAfterPrintLine(prefix: string, before: seq<Op>, line: string, s: string, pending: bool)
    ensures Indented(prefix, before + [PrintLine(line), Print(s)], pending) ==
      Indented(prefix, before + [PrintLine(line)], pending) + prefix + s
  {
    LemmaIndentedAppend(prefix, before + [PrintLine(line)], [Print(s)], pending);
    LemmaIndentedAppend(prefix, before, [PrintLine(line)], pending);
    assert before + [PrintLine(line), Print(s)] == before + [PrintLine(line)] + [Print(s)];
  }

  /** With no indent pending, a write passes through unchanged. */
  lemma LemmaPassThrough(prefix: string, s: string, rest: seq<Op>)
    ensures Indented(prefix, [Print(s)] + rest, false) == s + Indented(prefix, rest, false)
  {
    assert ([Print(s)] + rest)[1..] == rest;
  }

  /** The argument-less `println()` does not set the flag: the next write is not indented. */
  lemma LemmaBareNewLine(prefix: string, a: string, s: string)
    ensures Indented(prefix, [Print(a), NewLine, Print(s)], false) == a + "\n" + s
  {
    LemmaPassThrough(prefix, a, [NewLine, Print(s)]);
    LemmaNewLineThrough(prefix, [Print(s)], false);
    LemmaPassThrough(prefix, s, []);
    assert [Print(a)] + [NewLine, Print(s)] == [Print(a), NewLine, Print(s)];
    assert [NewLine] + [Print(s)] == [NewLine, Print(s)];
    assert [Print(s)] + [] == [Print(s)];
    assert a + ("\n" + (s + "")) == a + "\n" + s;
  }

  /** `println()` writes the separator alone and leaves the flag as it was. */
  lemma LemmaNewLineThrough(prefix: string, rest: seq<Op>, pending: bool)
    ensures Indented(prefix, [NewLine] + rest, pending) == "\n" + Indented(prefix, rest, pending)
  {
    assert ([NewLine] + rest)[1..] == rest;
  }

  /** The prefix is emitted at most once per `println(String)`, plus once at the start. */
  lemma {:induction false} LemmaPrefixBound(ops: seq<Op>, pending: bool)
    ensures PrefixCount(ops, pending) <= (if pending then 1 else 0) + PrintLineCount(ops)
    ensures !PendingAfter(ops, pending) || pending || PrintLineCount(ops) > 0
    ensures PrefixCount(ops, pending) + (if PendingAfter(ops, pending) then 1 else 0) <=
      (if pending then 1 else 0) + PrintLineCount(ops)
    decreases |ops|
  {
    if ops != [] {
      LemmaPrefixBound(ops[1..], PendingAfterOne(ops[0], pending));
    }
  }

  /** With an empty prefix the writer writes exactly what a plain writer writes. */
  lemma {:induction false} LemmaEmptyPrefix(ops: seq<Op>, pending: bool)
    ensures Indented("", ops, pending) == Plain(ops)
    decreases |ops|
  {
    if ops != [] {
      LemmaEmptyPrefix(ops[1..], PendingAfterOne(ops[0], pending));
    }
  }

  /** Only prefixes are inserted: the length grows by one prefix per emission. */
  lemma {:induction false} LemmaOnlyPrefixesInserted(prefix: string, ops: seq<Op>, pending: bool)
    ensures |Indented(prefix, ops, pending)| == |Plain(ops)| + PrefixCount(ops, pending) * |prefix|
    decreases |ops|
  {
    if ops != [] {
      var next := PendingAfterOne(ops[0], pending);
      var k: nat := if pending && Writes(ops[0]) then 1 else 0;
      LemmaOnlyPrefixesInserted(prefix, ops[1..], next);
      var n := PrefixCount(ops[1..], next);
      var head := (if pending && Writes(ops[0]) then prefix else "") + Emitted(ops[0]);
      assert |head| == k * |prefix| + |Emitted(ops[0])|;
      assert Indented(prefix, ops, pending) == head + Indented(prefix, ops[1..], next);
      assert PrefixCount(ops, pending) == k + n;
      LemmaDistribute(k, n, |prefix|);
    }
  }

  lemma LemmaDistribute(k: nat, n: nat, m: nat)
    ensures (k + n) * m == k * m + n * m
  {
  }

  /**
   * Where a write happens with the prefix pending, the output at that point reads the prefix and
   * then the written text; elsewhere, the written text alone.
   */
  lemma LemmaWriteAt(prefix: string, before: seq<Op>, s: string, after: seq<Op>, pending: bool)
    ensures PendingAfter(before, pending) ==>
      Indented(prefix, before + [Print(s)] + after, pending) ==
        Indented(prefix, before, pending) + prefix + s + Indented(prefix, after, false)
    ensures !PendingAfter(before, pending) ==>
      Indented(prefix, before + [Print(s)] + after, pending) ==
        Indented(prefix, before, pending) + s + Indented(prefix, after, false)
  {
    var p := PendingAfter(before, pending);
    LemmaIndentedAppend(prefix, before + [Print(s)], after, pending);
    LemmaIndentedAppend(prefix, before, [Print(s)], pending);
    LemmaOnePrint(prefix, s, p);
    var m := Indented(prefix, [Print(s)], p);
    assert Indented(prefix, before + [Print(s)] + after, pending) ==
      Indented(prefix, before, pending) + m + Indented(prefix, after, false);
    LemmaRegroup(Indented(prefix, before, pending), prefix, s, Indented(prefix, after, false));
  }

  lemma LemmaRegroup(x: string, prefix: string, s: string, y: string)
    ensures x + (prefix + s) + y == x + prefix + s + y
  {
  }

  /** One `print` writes the prefix when it is pending, then its text, and clears the flag. */
  lemma LemmaOnePrint(prefix: string, s: string, pending: bool)
    ensures Indented(prefix, [Print(s)], pending) == (if pending then prefix + s else s)
    ensures !PendingAfter([Print(s)], pending)
  {
    assert [Print(s)][1..] == [];
    assert (if pending then prefix else "") + s + "" == (if pending then prefix + s else s);
  }

  /** Two `print` calls in a row write what one `print` of the joined text writes. */
  lemma LemmaPrintsJoin(prefix: string, a: string, b: string, rest: seq<Op>, pending: bool)
    ensures Indented(prefix, [Print(a), Print(b)] + rest, pending) == Indented(prefix, [Print(a + b)] + rest, pending)
    ensures PendingAfter([Print(a), Print(b)] + rest, pending) == PendingAfter([Print(a + b)] + rest, pending)
  {
    assert ([Print(a), Print(b)] + rest)[1..] == [Print(b)] + rest;
    assert ([Print(b)] + rest)[1..] == rest;
    assert ([Print(a + b)] + rest)[1..] == rest;
  }

  /** Calls that are all `print`, as an expression's `compile` makes. */
  predicate AllPrints(ops: seq<Op>)
  {
    forall i :: 0 <= i < |ops| ==> ops[i].Print?
  }

  /**
   * A run of `print` calls gets at most one prefix, in front of all of it, and leaves the flag
   * cleared unless it was empty.
   */
  lemma {:induction false} LemmaPrintsOnly(prefix: string, ops: seq<Op>, pending: bool)
    requires AllPrints(ops)
    ensures Indented(prefix, ops, pending) == (if pending && ops != [] then prefix else "") + Plain(ops)
    ensures PendingAfter(ops, pending) == (pending && ops == [])
    decreases |ops|
  {
    if ops != [] {
      LemmaPrintsOnly(prefix, ops[1..], false);
    }
  }
}
