/**
 * `WordyCompiler.compile(program, className, contextInterfaceName)`: the Java class around the
 * program's compiled statements. The header and `run` opening, then the program through an
 * `IndentingPrintWriter` with an eight-space prefix, then `createContext` and the nested
 * `ExecutionContext` with one field and one getter/setter pair per variable.
 *
 * `findAllVariables` returns a `HashSet`, whose iteration order is not specified: it is the
 * parameter `order`, any enumeration of the set without repetition.
 */
module Compiler {
  import opened Ast
  import opened Writer
  import opened Emitter
  import opened Variables
  import opened OrderedMap
  import Text

  /** The text block before the program, with `className` filled in. */
  function Header(className: string): string
  {
    "import wordy.compiler.WordyExecutable;\n\npublic class " + className
      + " implements WordyExecutable<" + className + ".ExecutionContext> {\n"
      + "    public void run(ExecutionContext context) {\n"
  }

  /** The `linePrefix` of the writer the program is compiled through. */
  const RunIndent: string := "        "

  /** The text block after the program, with `contextInterfaceName` filled in. */
  function Middle(iface: string): string
  {
    "    }\n\n    public ExecutionContext createContext() {\n        return new ExecutionContext();\n    }\n\n"
      + "    public static class ExecutionContext implements " + iface + " {\n"
  }

  /** The field of one variable, printed with `println`. */
  function Field(v: string): string
  {
    "        private double " + v + ";\n"
  }

  /** The getter and setter of one variable: a text block printed with `println`. */
  function Accessors(v: string): string
  {
    Getter(v) + Setter(v) + "\n"
  }

  function Getter(v: string): string
  {
    "        public double get_" + v + "() {\n            return " + v + ";\n        }\n\n"
  }

  function Setter(v: string): string
  {
    "        public void set_" + v + "(double " + v + ") {\n            this." + v + " = " + v + ";\n        }\n"
  }

  /** The closing text block. */
  const Footer: string := "    }\n}\n"

  /** One piece of text per name, in the given order. */
  function PerName(order: seq<string>, piece: string -> string): (r: seq<string>)
    ensures |r| == |order|
    ensures forall i :: 0 <= i < |order| ==> r[i] == piece(order[i])
  {
    if order == [] then [] else [piece(order[0])] + PerName(order[1..], piece)
  }

  function Concat(parts: seq<string>): string
  {
    if parts == [] then "" else parts[0] + Concat(parts[1..])
  }

  /** `order` lists the names of `names`, each once. */
  predicate Enumerates(order: seq<string>, names: set<string>)
  {
    Distinct(order) && (set v | v in order) == names
  }

  /** What the program's `compile` writes through the indenting writer. */
  function RunBody(program: Stmt, fmt: real -> string): string
  {
    Indented(RunIndent, CompileStmt(program, fmt), true)
  }

  /**
   * The members of the nested `ExecutionContext`, as the text blocks printed one after the
   * other: a field per name, a blank line, then a getter/setter pair per name.
   */
  function MemberBlocks(order: seq<string>): seq<string>
  {
    PerName(order, Field) + ["\n"] + PerName(order, Accessors)
  }

  /** The generated source. */
  function Compile(program: Stmt, className: string, iface: string, order: seq<string>, fmt: real -> string): (out: string)
    requires Enumerates(order, FindAllVariables(S(program)))
    ensures out == Header(className) + RunBody(program, fmt) + Middle(iface) + Concat(MemberBlocks(order)) + Footer
    ensures Text.StartsWith(out, Header(className) + RunBody(program, fmt) + Middle(iface))
    ensures Text.EndsWith(out, Footer)
  {
    var rest := Concat(PerName(order, Field)) + "\n" + Concat(PerName(order, Accessors));
    LemmaConcatAround(PerName(order, Field), "\n", PerName(order, Accessors));
    LemmaLayout(Header(className), RunBody(program, fmt), Middle(iface), rest, Footer);
    Header(className) + RunBody(program, fmt) + Middle(iface) + rest + Footer
  }

  /** Concatenating two lists of text blocks. */
  lemma {:induction false} LemmaConcatAppend(a: seq<string>, b: seq<string>)
    ensures Concat(a + b) == Concat(a) + Concat(b)
  {
    if a == [] {
      assert a + b == b;
    } else {
      assert (a + b)[0] == a[0];
      assert (a + b)[1..] == a[1..] + b;
      LemmaConcatAppend(a[1..], b);
      LemmaAssoc(a[0], Concat(a[1..]), Concat(b));
    }
  }

  /** Two lists of text blocks with one block between them. */
  lemma LemmaConcatAround(a: seq<string>, mid: string, b: seq<string>)
    ensures Concat(a + [mid] + b) == Concat(a) + mid + Concat(b)
  {
    LemmaConcatAppend(a + [mid], b);
    LemmaConcatAppend(a, [mid]);
    assert Concat([mid]) == mid + Concat([]);
  }

  lemma LemmaLayout(h: string, b: string, m: string, rest: string, f: string)
    ensures Text.StartsWith(h + b + m + rest + f, h + b + m)
    ensures Text.EndsWith(h + b + m + rest + f, f)
  {
    assert (h + b + m + rest + f)[..|h + b + m|] == h + b + m;
  }

  // ------------------------------------------------ properties

  /** A piece function that gives different names different pieces. */
  ghost predicate Injective(piece: string -> string)
  {
    forall v, w :: piece(v) == piece(w) ==> v == w
  }

  /** A name placed between fixed texts is determined by the whole. */
  lemma LemmaSlot(p: string, v: string, w: string, s: string, t: string)
    requires p + v + s == p + w + t && |v| == |w|
    ensures v == w
  {
    assert v == (p + v + s)[|p|..|p| + |v|];
    assert w == (p + w + t)[|p|..|p| + |w|];
  }

  lemma LemmaFieldInjective()
    ensures Injective(Field)
  {
    forall v, w | Field(v) == Field(w) ensures v == w {
      LemmaSlot("        private double ", v, w, ";\n", ";\n");
    }
  }

  lemma LemmaAccessorsLength(v: string)
    ensures |Accessors(v)| == 132 + 6 * |v|
  {
    assert |Getter(v)| == 63 + 2 * |v|;
    assert |Setter(v)| == 68 + 4 * |v|;
  }

  lemma LemmaAccessorsInjective()
    ensures Injective(Accessors)
  {
    forall v, w | Accessors(v) == Accessors(w) ensures v == w {
      LemmaAccessorsSlot(v, w);
    }
  }

  lemma LemmaAccessorsSlot(v: string, w: string)
    requires Accessors(v) == Accessors(w)
    ensures v == w
  {
    LemmaAccessorsLength(v);
    LemmaAccessorsLength(w);
    var p := "        public double get_";
    var s, t := Accessors(v)[|p| + |v|..], Accessors(w)[|p| + |w|..];
    assert Accessors(v) == p + v + s;
    assert Accessors(w) == p + w + t;
    LemmaSlot(p, v, w, s, t);
  }

  /** Over a list without repetition, an injective piece occurs once per listed name and never otherwise. */
  lemma {:induction false} LemmaOncePerName(order: seq<string>, piece: string -> string, v: string)
    requires Distinct(order) && Injective(piece)
    ensures multiset(PerName(order, piece))[piece(v)] == if v in order then 1 else 0
  {
    if order != [] {
      assert Distinct(order[1..]) by {
        forall i, j | 0 <= i < j < |order[1..]| ensures order[1..][i] != order[1..][j] {
          assert order[1..][i] == order[i + 1] && order[1..][j] == order[j + 1];
        }
      }
      LemmaOncePerName(order[1..], piece, v);
      assert PerName(order, piece) == [piece(order[0])] + PerName(order[1..], piece);
      assert v in order <==> v == order[0] || v in order[1..];
      if v == order[0] {
        assert v !in order[1..] by {
          forall j | 0 <= j < |order[1..]| ensures order[1..][j] != v {
            assert order[1..][j] == order[j + 1];
          }
        }
      }
    }
  }

  /** A field block is never a getter/setter block: they differ at their tenth character. */
  lemma LemmaFieldNotAccessors(v: string, w: string)
    ensures Field(v) != Accessors(w)
  {
    assert Field(v)[9] == 'r';
    assert Getter(w)[9] == 'u';
    assert Accessors(w)[9] == Getter(w)[9];
  }

  /** How often a block occurs among the member blocks: among the fields, the blank line, the accessors. */
  lemma LemmaMemberCount(order: seq<string>, x: string)
    ensures multiset(MemberBlocks(order))[x] ==
      multiset(PerName(order, Field))[x] + (if x == "\n" then 1 else 0) + multiset(PerName(order, Accessors))[x]
  {
    assert MemberBlocks(order) == PerName(order, Field) + ["\n"] + PerName(order, Accessors);
  }

  /** A block that no name's piece equals does not occur among the pieces. */
  lemma LemmaNoPiece(order: seq<string>, piece: string -> string, x: string)
    requires forall i :: 0 <= i < |order| ==> piece(order[i]) != x
    ensures multiset(PerName(order, piece))[x] == 0
  {
    assert x !in PerName(order, piece);
  }

  /**
   * Among the member blocks of the generated class there is exactly one `private double v;`
   * field per distinct variable of the program, and none for any other name.
   */
  lemma LemmaOneFieldPerVariable(program: Stmt, order: seq<string>, v: string)
    requires Enumerates(order, FindAllVariables(S(program)))
    ensures multiset(MemberBlocks(order))[Field(v)] == if v in FindAllVariables(S(program)) then 1 else 0
  {
    LemmaMembersOf(order, FindAllVariables(S(program)), v);
  }

  /**
   * Among the member blocks of the generated class there is exactly one getter/setter pair per
   * distinct variable of the program, and none for any other name.
   */
  lemma LemmaOneAccessorPairPerVariable(program: Stmt, order: seq<string>, v: string)
    requires Enumerates(order, FindAllVariables(S(program)))
    ensures multiset(MemberBlocks(order))[Accessors(v)] == if v in FindAllVariables(S(program)) then 1 else 0
  {
    LemmaMembersOf(order, FindAllVariables(S(program)), v);
  }

  /** For any names listed once each: one field block and one accessor block per name, none for others. */
  lemma LemmaMembersOf(order: seq<string>, names: set<string>, v: string)
    requires Enumerates(order, names)
    ensures multiset(MemberBlocks(order))[Field(v)] == if v in names then 1 else 0
    ensures multiset(MemberBlocks(order))[Accessors(v)] == if v in names then 1 else 0
  {
    LemmaFieldInjective();
    LemmaAccessorsInjective();
    LemmaOncePerName(order, Field, v);
    LemmaOncePerName(order, Accessors, v);
    LemmaMemberCount(order, Field(v));
    LemmaMemberCount(order, Accessors(v));
    assert |Field(v)| > 1;
    LemmaAccessorsLength(v);
    forall i | 0 <= i < |order| ensures Accessors(order[i]) != Field(v) && Field(order[i]) != Accessors(v) {
      LemmaFieldNotAccessors(v, order[i]);
      LemmaFieldNotAccessors(order[i], v);
    }
    LemmaNoPiece(order, Accessors, Field(v));
    LemmaNoPiece(order, Field, Accessors(v));
  }

  /** The program's first write gets the eight-space prefix: the writer starts with an indent pending. */
  lemma LemmaRunBodyIndented(program: Stmt, fmt: real -> string)
    ensures Text.StartsWith(RunBody(program, fmt), RunIndent + Emitted(CompileStmt(program, fmt)[0]))
  {
    var ops := CompileStmt(program, fmt);
    assert ops == [ops[0]] + ops[1..];
    assert RunBody(program, fmt) == RunIndent + Emitted(ops[0]) + Indented(RunIndent, ops[1..], PendingAfterOne(ops[0], true));
  }
}
