/**
 * `ASTNode.dump()`: a multi-line drawing of a subtree. Every node gets one line holding its
 * class name and attributes; a child line carries a tree connector and the label under which
 * its parent lists it, and the child's own children are indented past that label.
 */
module Dump {
  import opened Wrappers
  import opened Ast
  import opened OrderedMap
  import Text

  /** The connector drawn before a child's label: a corner for the last child, a tee otherwise. */
  function Connector(last: bool): (r: string)
    ensures |r| == 2 && r[1] == '\U{2500}'
    ensures last <==> r[0] == '\U{2514}'
    ensures !last <==> r[0] == '\U{251C}'
  {
    if last then "\U{2514}\U{2500}" else "\U{251C}\U{2500}"
  }

  /** What continues a child's column on the lines below it: blank after the last child. */
  function Continuation(last: bool): (r: string)
    ensures |r| == 2 && r[1] == ' '
    ensures last <==> r[0] == ' '
    ensures !last <==> r[0] == '\U{2502}'
  {
    if last then "  " else "\U{2502} "
  }

  /** The part of a node's line that identifies the node: simple class name, space, attributes. */
  function Header(n: Node, fmt: real -> string): string
  {
    ClassName(n) + " " + Attributes(n, fmt)
  }

  /**
   * The line drawn for the node itself: a labelled node gets its connector and label
   * between the indent and its header.
   */
  function HeadLine(n: Node, key: Option<string>, indent: string, last: bool, fmt: real -> string): (r: string)
    ensures Text.StartsWith(r, indent)
    ensures Text.EndsWith(r, Header(n, fmt))
    ensures key.None? ==> r == indent + Header(n, fmt)
    ensures key.Some? ==> r == indent + Connector(last) + key.value + ": " + Header(n, fmt)
  {
    if key.Some? then
      var r := indent + Connector(last) + key.value + ": " + Header(n, fmt);
      LemmaConcatAffixes(indent, Connector(last));
      LemmaConcatAffixes(indent + Connector(last), key.value);
      LemmaStartsWithTrans(indent + Connector(last) + key.value, indent + Connector(last), indent);
      LemmaConcatAffixes(indent + Connector(last) + key.value, ": ");
      LemmaStartsWithTrans(indent + Connector(last) + key.value + ": ", indent + Connector(last) + key.value, indent);
      LemmaConcatAffixes(indent + Connector(last) + key.value + ": ", Header(n, fmt));
      LemmaStartsWithTrans(r, indent + Connector(last) + key.value + ": ", indent);
      r
    else
      LemmaConcatAffixes(indent, Header(n, fmt));
      indent + Header(n, fmt)
  }

  lemma LemmaConcatAffixes(a: string, b: string)
    ensures Text.StartsWith(a + b, a) && Text.EndsWith(a + b, b)
  {
    assert (a + b)[..|a|] == a;
    assert (a + b)[|a + b| - |b|..] == b;
  }

  /** The indent handed down to the children of a node drawn with `label` under `indent`. */
  function ChildIndent(key: Option<string>, indent: string, last: bool): (r: string)
    ensures Text.StartsWith(r, indent)
    ensures key.None? ==> r == indent
    ensures key.Some? ==> |r| == |indent| + 2 + |key.value| + 2
  {
    if key.Some? then indent + Continuation(last) + Text.Spaces(|key.value| + 2) else indent
  }

  /**
   * The lines (without their line breaks) the private `dump(out, label, indent, lastChild)`
   * appends for node `n`; a `None` label marks the root.
   */
  function Lines(n: Node, key: Option<string>, indent: string, last: bool, fmt: real -> string): (r: seq<string>)
    ensures |r| >= 1
    decreases Size(n), 0
  {
    [HeadLine(n, key, indent, last, fmt)] + ChildLines(Children(n), ChildIndent(key, indent, last), fmt)
  }

  /** The loop over `getChildren().entrySet()`: only the final entry counts as the last child. */
  function ChildLines(cs: OMap<string, Node>, indent: string, fmt: real -> string): seq<string>
    decreases NodesSize(Values(cs)), 1
  {
    if cs == [] then []
    else
      LemmaValuesTail(cs);
      Lines(cs[0].1, Some(cs[0].0), indent, |cs| == 1, fmt) + ChildLines(cs[1..], indent, fmt)
  }

  lemma LemmaValuesTail(cs: OMap<string, Node>)
    requires cs != []
    ensures Values(cs)[0] == cs[0].1
    ensures Values(cs)[1..] == Values(cs[1..])
    ensures NodesSize(Values(cs)) == Size(cs[0].1) + NodesSize(Values(cs[1..]))
  {
  }

  /** Every line followed by a line break, concatenated. */
  function Join(lines: seq<string>): (r: string)
    ensures |r| >= |lines|
  {
    if lines == [] then "" else lines[0] + "\n" + Join(lines[1..])
  }

  /** `dump()`: the root is drawn without label and indent. */
  function DumpText(n: Node, fmt: real -> string): string
  {
    Join(Lines(n, None, "", true, fmt))
  }

  // ------------------------------------------------ reference: pre-order of the subtree

  /** The nodes of a subtree in pre-order, children in `getChildren` order. */
  function PreOrder(n: Node): seq<Node>
    decreases Size(n), 0
  {
    [n] + PreOrderAll(Values(Children(n)))
  }

  function PreOrderAll(ns: seq<Node>): seq<Node>
    decreases NodesSize(ns), 1
  {
    if ns == [] then [] else PreOrder(ns[0]) + PreOrderAll(ns[1..])
  }

  /** A subtree lists `Size(n)` nodes in pre-order. */
  lemma {:induction false} LemmaPreOrderSize(n: Node)
    ensures |PreOrder(n)| == Size(n)
    decreases Size(n), 0
  {
    LemmaPreOrderAllSize(Values(Children(n)));
    LemmaSubtermsSize(n);
  }

  lemma {:induction false} LemmaPreOrderAllSize(ns: seq<Node>)
    ensures |PreOrderAll(ns)| == NodesSize(ns)
    decreases NodesSize(ns), 1
  {
    if ns != [] {
      LemmaPreOrderSize(ns[0]);
      LemmaPreOrderAllSize(ns[1..]);
    }
  }

  /** The children of a node account for all its nodes but itself. */
  lemma LemmaSubtermsSize(n: Node)
    ensures NodesSize(Values(Children(n))) == Size(n) - 1
  {
    match n
    case E(Bin(_, l, rt)) => LemmaNodesSize2(E(l), E(rt));
    case S(Assign(x, e)) => LemmaNodesSize2(E(Var(x)), E(e));
    case S(Block(ss)) => LemmaStmtsAsNodesSize(ss);
    case S(Cond(_, l, rt, t, f)) => LemmaNodesSize4(E(l), E(rt), S(t), S(f));
    case S(Loop(b)) => LemmaNodesSize1(S(b));
    case _ =>
  }

  lemma LemmaStartsWithTrans(s: string, t: string, u: string)
    requires Text.StartsWith(s, t) && Text.StartsWith(t, u)
    ensures Text.StartsWith(s, u)
  {
    assert s[..|u|] == s[..|t|][..|u|];
  }

  // ------------------------------------------------ properties of the drawing

  /**
   * `lines` draws `nodes` one for one: line `i` starts with `indent` and ends with the class
   * name and attributes of node `i`.
   */
  predicate LinesMatch(lines: seq<string>, nodes: seq<Node>, indent: string, fmt: real -> string)
  {
    |lines| == |nodes| &&
    forall i {:trigger LineMatch(lines[i], nodes[i], indent, fmt)} :: 0 <= i < |lines| ==> LineMatch(lines[i], nodes[i], indent, fmt)
  }

  /** A line that draws `n` below `indent`. */
  predicate LineMatch(line: string, n: Node, indent: string, fmt: real -> string)
  {
    Text.EndsWith(line, Header(n, fmt)) && Text.StartsWith(line, indent)
  }

  lemma LemmaMatchConcat(a: seq<string>, an: seq<Node>, b: seq<string>, bn: seq<Node>, indent: string, fmt: real -> string)
    requires LinesMatch(a, an, indent, fmt) && LinesMatch(b, bn, indent, fmt)
    ensures LinesMatch(a + b, an + bn, indent, fmt)
  {
    var lines := a + b;
    var nodes := an + bn;
    forall i | 0 <= i < |lines|
      ensures LineMatch(lines[i], nodes[i], indent, fmt)
    {
      if i < |a| {
        LemmaConcatLeft(a, b, i);
        LemmaConcatLeft(an, bn, i);
        assert LineMatch(a[i], an[i], indent, fmt);
      } else {
        LemmaConcatRight(a, b, i);
        LemmaConcatRight(an, bn, i);
        assert LineMatch(b[i - |a|], bn[i - |a|], indent, fmt);
      }
    }
  }

  lemma LemmaConcatLeft<T>(a: seq<T>, b: seq<T>, i: nat)
    requires i < |a|
    ensures (a + b)[i] == a[i]
  {
  }

  lemma LemmaConcatRight<T>(a: seq<T>, b: seq<T>, i: nat)
    requires |a| <= i < |a| + |b|
    ensures (a + b)[i] == b[i - |a|]
  {
  }

  lemma LemmaMatchWeaken(lines: seq<string>, nodes: seq<Node>, inner: string, indent: string, fmt: real -> string)
    requires LinesMatch(lines, nodes, inner, fmt) && Text.StartsWith(inner, indent)
    ensures LinesMatch(lines, nodes, indent, fmt)
  {
    forall i | 0 <= i < |lines| ensures LineMatch(lines[i], nodes[i], indent, fmt) {
      assert LineMatch(lines[i], nodes[i], inner, fmt);
      LemmaStartsWithTrans(lines[i], inner, indent);
    }
  }

  lemma LemmaMatchCons(head: string, rest: seq<string>, n: Node, nodes: seq<Node>, inner: string, indent: string, fmt: real -> string)
    requires Text.EndsWith(head, Header(n, fmt)) && Text.StartsWith(head, indent)
    requires LinesMatch(rest, nodes, inner, fmt) && Text.StartsWith(inner, indent)
    ensures LinesMatch([head] + rest, [n] + nodes, indent, fmt)
    ensures ([head] + rest)[1..] == rest && ([n] + nodes)[1..] == nodes
  {
    LemmaMatchWeaken(rest, nodes, inner, indent, fmt);
    LemmaMatchConcat([head], [n], rest, nodes, indent, fmt);
  }

  lemma LemmaLinesUnfold(n: Node, key: Option<string>, indent: string, last: bool, fmt: real -> string)
    ensures Lines(n, key, indent, last, fmt) ==
      [HeadLine(n, key, indent, last, fmt)] + ChildLines(Children(n), ChildIndent(key, indent, last), fmt)
    ensures PreOrder(n) == [n] + PreOrderAll(Values(Children(n)))
  {
  }

  lemma LemmaChildLinesUnfold(cs: OMap<string, Node>, indent: string, fmt: real -> string)
    requires cs != []
    ensures ChildLines(cs, indent, fmt) ==
      Lines(cs[0].1, Some(cs[0].0), indent, |cs| == 1, fmt) + ChildLines(cs[1..], indent, fmt)
    ensures PreOrderAll(Values(cs)) == PreOrder(cs[0].1) + PreOrderAll(Values(cs[1..]))
  {
    LemmaValuesTail(cs);
  }

  /**
   * The drawing of a subtree has one line per node, in pre-order: line `i` ends with the class
   * name and attributes of the `i`-th node and starts with the indent the node was given, and
   * every line below the first starts with the indent handed to the children.
   */
  lemma {:induction false} LemmaLinesFollowPreOrder(n: Node, key: Option<string>, indent: string, last: bool, fmt: real -> string)
    ensures LinesMatch(Lines(n, key, indent, last, fmt), PreOrder(n), indent, fmt)
    ensures LinesMatch(Lines(n, key, indent, last, fmt)[1..], PreOrder(n)[1..], ChildIndent(key, indent, last), fmt)
    decreases Size(n), 0
  {
    var inner := ChildIndent(key, indent, last);
    LemmaChildLinesFollowPreOrder(Children(n), inner, fmt);
    LemmaLinesUnfold(n, key, indent, last, fmt);
    LemmaMatchCons(HeadLine(n, key, indent, last, fmt), ChildLines(Children(n), inner, fmt),
                   n, PreOrderAll(Values(Children(n))), inner, indent, fmt);
  }

  lemma {:induction false} LemmaChildLinesFollowPreOrder(cs: OMap<string, Node>, indent: string, fmt: real -> string)
    ensures LinesMatch(ChildLines(cs, indent, fmt), PreOrderAll(Values(cs)), indent, fmt)
    decreases NodesSize(Values(cs)), 1
  {
    if cs != [] {
      LemmaValuesTail(cs);
      LemmaLinesFollowPreOrder(cs[0].1, Some(cs[0].0), indent, |cs| == 1, fmt);
      LemmaChildLinesFollowPreOrder(cs[1..], indent, fmt);
      LemmaChildLinesUnfold(cs, indent, fmt);
      LemmaMatchConcat(Lines(cs[0].1, Some(cs[0].0), indent, |cs| == 1, fmt), PreOrder(cs[0].1),
                       ChildLines(cs[1..], indent, fmt), PreOrderAll(Values(cs[1..])), indent, fmt);
    }
  }

  /** The first line of a node's drawing is its own line, and the drawing has `Size(n)` lines. */
  lemma LemmaLinesShape(n: Node, key: Option<string>, indent: string, last: bool, fmt: real -> string)
    ensures Lines(n, key, indent, last, fmt)[0] == HeadLine(n, key, indent, last, fmt)
    ensures |Lines(n, key, indent, last, fmt)| == Size(n)
  {
    LemmaLinesUnfold(n, key, indent, last, fmt);
    LemmaLinesFollowPreOrder(n, key, indent, last, fmt);
    LemmaPreOrderSize(n);
  }

  /** Number of lines the children before position `j` occupy. */
  function Offset(cs: OMap<string, Node>, j: nat): nat
    requires j <= |cs|
  {
    NodesSize(Values(cs[..j]))
  }

  /**
   * Within the children's lines, child `j` starts at offset `Offset(cs, j)` with its connector
   * and label; exactly the final child is drawn with the corner connector.
   */
  lemma {:induction false} LemmaChildLineAt(cs: OMap<string, Node>, indent: string, fmt: real -> string, j: nat)
    requires j < |cs|
    ensures Offset(cs, j) < |ChildLines(cs, indent, fmt)|
    ensures ChildLines(cs, indent, fmt)[Offset(cs, j)] ==
      indent + Connector(j == |cs| - 1) + cs[j].0 + ": " + Header(cs[j].1, fmt)
    decreases j
  {
    if j == 0 {
      LemmaFirstChildLine(cs, indent, fmt);
    } else {
      LemmaChildLineAt(cs[1..], indent, fmt, j - 1);
      LemmaLaterChildLine(cs, indent, fmt, j);
      assert cs[1..][j - 1] == cs[j];
    }
  }

  lemma LemmaFirstChildLine(cs: OMap<string, Node>, indent: string, fmt: real -> string)
    requires cs != []
    ensures Offset(cs, 0) == 0 < |ChildLines(cs, indent, fmt)|
    ensures ChildLines(cs, indent, fmt)[0] ==
      indent + Connector(|cs| == 1) + cs[0].0 + ": " + Header(cs[0].1, fmt)
  {
    var first := Lines(cs[0].1, Some(cs[0].0), indent, |cs| == 1, fmt);
    var rest := ChildLines(cs[1..], indent, fmt);
    LemmaChildLinesUnfold(cs, indent, fmt);
    LemmaLinesShape(cs[0].1, Some(cs[0].0), indent, |cs| == 1, fmt);
    assert cs[..0] == [];
    assert (first + rest)[0] == first[0];
  }

  lemma LemmaLaterChildLine(cs: OMap<string, Node>, indent: string, fmt: real -> string, j: nat)
    requires 0 < j < |cs|
    requires Offset(cs[1..], j - 1) < |ChildLines(cs[1..], indent, fmt)|
    ensures Offset(cs, j) < |ChildLines(cs, indent, fmt)|
    ensures ChildLines(cs, indent, fmt)[Offset(cs, j)] == ChildLines(cs[1..], indent, fmt)[Offset(cs[1..], j - 1)]
  {
    LemmaChildLinesUnfold(cs, indent, fmt);
    LemmaLinesShape(cs[0].1, Some(cs[0].0), indent, |cs| == 1, fmt);
    LemmaOffsetStep(cs, j);
    LemmaIndexAfter(Lines(cs[0].1, Some(cs[0].0), indent, |cs| == 1, fmt), ChildLines(cs[1..], indent, fmt),
      Offset(cs[1..], j - 1));
  }

  lemma LemmaIndexAfter<T>(a: seq<T>, b: seq<T>, k: nat)
    requires k < |b|
    ensures (a + b)[|a| + k] == b[k]
  {
  }

  lemma LemmaOffsetStep(cs: OMap<string, Node>, j: nat)
    requires 0 < j <= |cs|
    ensures Offset(cs, j) == Size(cs[0].1) + Offset(cs[1..], j - 1)
  {
    var pre := cs[..j];
    assert pre != [] && pre[0] == cs[0];
    assert pre[1..] == cs[1..][..j - 1];
    LemmaValuesTail(pre);
  }

  /** The root line of `dump()` is the root's header, unindented and unlabelled. */
  lemma LemmaRootLine(n: Node, fmt: real -> string)
    ensures Text.StartsWith(DumpText(n, fmt), Header(n, fmt) + "\n")
  {
    var lines := Lines(n, None, "", true, fmt);
    LemmaLinesShape(n, None, "", true, fmt);
    assert lines[0] == Header(n, fmt);
    var d := DumpText(n, fmt);
    assert d == lines[0] + "\n" + Join(lines[1..]);
    assert d[..|Header(n, fmt) + "\n"|] == Header(n, fmt) + "\n";
  }

  /** `dump()` draws as many lines as the subtree has nodes. */
  lemma LemmaDumpLineCount(n: Node, fmt: real -> string)
    ensures |Lines(n, None, "", true, fmt)| == Size(n)
  {
    LemmaLinesShape(n, None, "", true, fmt);
  }
}
