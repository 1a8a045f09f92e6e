# Wordy in Dafny

Wordy is a small teaching language whose statements read like English:

```
set x to 17. loop: set x to x minus 1. if x equals 3 then exit loop. end of loop.
```

This project models the core of its Java implementation:

- **Parser.** The parboiled grammar `WordyParser` is modelled as a deterministic
  recursive-descent reader. It covers whitespace normalisation and lower-casing, the three entry
  points, and operator precedence and associativity. It covers the block and single-statement
  forms of conditionals, `BlockNode.EMPTY` for a missing `else`, loops and loop exits.
- **Syntax tree.** The AST nodes are modelled together with `getChildren` (built with the
  ordered-map helpers of `Utils`), `describeAttributes`, the structural `equals`,
  `findAllVariables` and the tree-drawing `dump`.
- **Interpreter.**
  - `EvaluationContext` holds an insertion-ordered variable map and a tracer that records
    STARTED and COMPLETED events.
  - `ExpressionNode.evaluate` wraps `doEvaluate` in those trace events.
  - Binary operators include the exponent loop, which re-evaluates both operands on every round
    and counts with a 32-bit `int`.
  - Statements run with `LoopExited` as the signal that ends the innermost loop.
- **Compiler.** The `compile` methods print Java through `PrintWriter`. `IndentingPrintWriter`
  indents a line only after `println(String)`. `WordyCompiler.compile` assembles the class
  around the compiled program, with one field and one getter/setter pair per variable.

Values are `real`. Two behaviours of IEEE doubles are parameters:

- `dz` is the value of a division by zero;
- `fmt` is `Double.toString`.

The iteration order of the `HashSet` returned by `findAllVariables` is a parameter `order`. It
is constrained only to enumerate that set once per name. Running a statement takes a `fuel`
bound, and a run reports `Normal`, `Exited` (the `LoopExited` signal) or `OutOfFuel`.

Where the sources are incomplete, the model follows what the code evidently does:

- `VariableNode` declares no `doEvaluate`. Here a variable evaluates to `EvaluationContext.get`,
  which is 0 for an unset name.
- `StatementNode` declares only a throwing `run`, yet its subclasses override a `doRun` it
  never declares. Here `run` traces `doRun` exactly as `ExpressionNode.evaluate` traces
  `doEvaluate`. `LoopNode` calls `body.run`, so a loop body is traced.
  `ConditionalNode` calls `doRun` on its branches, so a branch is not.
- `AssignmentNode` and `BlockNode` have neither `doRun` nor `compile` in the sources. The
  model gives them the evident meaning:
  - an assignment stores the traced value of its expression;
  - a block `run`s its statements in order, stopping at the first that does not end normally;
  - they compile to `context.x = …;` and to the braces layout that `ConditionalNode.compile`
    uses for a branch.
- `ConstantNode`, `VariableNode` and `LoopExitNode` have no `compile` either. They print
  `fmt(value)`, `context.<name>` and `break;`, the forms the compiler tests expect.
- `ConditionalNode.compile` calls `BlockNode.getStatements()`, which the sources do not
  declare. It is read as the block's statement list.
- `ConditionalNode.doRun` evaluates its operands with `doEvaluate`, so it records no trace
  events of the operands' own. Events from inside a compound operand are still recorded by
  that operand's own `evaluate`. The model keeps this (`Execution.LemmaOperandEvents`,
  `Execution.LemmaCondOperandsUntraced`).

The two executions are not the same language:

- The interpreter's exponent loop gives `x to the power of 0` the value of `x`.
- The compiled `Math.pow(x, 0.0)` is 1.

`JavaMeaning.LemmaZeroExponent` states the mismatch. `JavaMeaning.LemmaExecAgrees` shows that
the two agree whenever every exponent is a constant whole number of at least 1. The
interpreter rounds a fractional exponent up, so `2 to the power of 1.5` is 4 there, while
`Math.pow` gives 2.83.

## Model

| member | source | states |
|---|---|---|
| Text.ToLower | src/wordy/parser/WordyParser.java:52-53 | the lower-casing `parse` applies to ASCII: no upper-case letter survives, other characters are unchanged, and an upper-case letter moves by exactly 'a' - 'A' |
| Text.NatToString | src/wordy/ast/BlockNode.java:33 | `String.valueOf(index)` of a block child's label is a non-empty run of digits that reads back as the index, with no leading zero |
| Text.NatToStringInjective | src/wordy/ast/BlockNode.java:32-34 | distinct indexes give distinct labels, so no block child's label overwrites another's |
| OrderedMap.Get | src/wordy/ast/Utils.java:30-36 | looking a key up finds a value exactly when the key is among the map's keys, and the value found is one stored with that key |
| OrderedMap.Put | src/wordy/interpreter/EvaluationContext.java:42-44 | `LinkedHashMap.put` keeps keys unique, maps the key to the new value, leaves every other key alone, keeps an existing key's place and appends a new key at the end |
| OrderedMap.LemmaGetUnique | src/wordy/ast/Utils.java:30-36 | in a map without repeated keys every stored entry is what a lookup of its key returns |
| OrderedMap.FromEntries | src/wordy/ast/Utils.java:30-36 | building a map from entries gives a map without repeated keys whose keys are exactly the entries' keys |
| OrderedMap.LemmaFromDistinctEntries | src/wordy/ast/Utils.java:30-36 | entries with distinct keys become a map holding exactly those entries, in order |
| OrderedMap.LemmaFromEntriesGet | src/wordy/ast/Utils.java:30-36 | the last entry for a key wins: its value is what the built map returns for it |
| OrderedMap.OrderedMap2 | src/wordy/ast/Utils.java:16-20 | two distinct keys give a map of exactly those keys in argument order, each with its value; equal keys collapse to one entry holding the later value |
| OrderedMap.OrderedMap4 | src/wordy/ast/Utils.java:22-28 | four distinct keys give a map of exactly those keys in argument order, each with its value |
| Ast.BlockChildren | src/wordy/ast/BlockNode.java:28-36 | a block's children are its statements in order, labelled "0", "1", … by position |
| Ast.PairChildren | src/wordy/ast/BinaryExpressionNode.java:30-34 | a two-child node lists its children under their two labels in order, and they make up all of the node's size below it |
| Ast.CondChildren | src/wordy/ast/ConditionalNode.java:38-45 | a conditional's children are lhs, rhs, ifTrue and ifFalse in that order |
| Ast.Children | src/wordy/ast/ASTNode.java:18 | every node's children form a map without repeated labels, its values are exactly the node's sub-terms, and they are strictly smaller than the node |
| Ast.LemmaChildLabels | src/wordy/ast/ASTNode.java:14-18 | the labels of each kind of node: none for constants, variables and loop exits; lhs/rhs for binary expressions and assignments; lhs/rhs/ifTrue/ifFalse; body; positions for blocks |
| Ast.LemmaDistinctLabels | src/wordy/ast/BlockNode.java:28-36 | block labels never repeat, so a block's map keeps every statement |
| Ast.BlockAttributes | src/wordy/ast/BlockNode.java:58-62 | a block is described as "(1 child)" exactly when it has one statement, and as "(n children)" otherwise |
| Ast.LemmaExprEqualsIsEquality | src/wordy/ast/BinaryExpressionNode.java:37-46 | the node-by-node `equals` of expressions holds exactly when the two trees are equal |
| Ast.LemmaStmtEqualsIsEquality | src/wordy/ast/ConditionalNode.java:47-57 | the node-by-node `equals` of statements, across all statement classes, holds exactly when the two trees are equal |
| Context.Read | src/wordy/interpreter/EvaluationContext.java:34-37 | an unset variable reads 0; a set one reads the value stored for it |
| Context.Get | src/wordy/interpreter/EvaluationContext.java:34-37 | `get` on a context returns 0 for unset names and the stored value otherwise |
| Context.Set | src/wordy/interpreter/EvaluationContext.java:42-44 | `set` makes the name read the new value, leaves every other name's value, the tracer and the trace unchanged, and adds a new name at the end of the variable order |
| Context.AllVariables | src/wordy/interpreter/EvaluationContext.java:46-48 | the exposed map has no repeated names and agrees with `get` on every name it lists |
| Context.Trace | src/wordy/interpreter/EvaluationContext.java:50-56 | tracing changes no variable; a recording tracer appends exactly the one event, the default tracer records nothing |
| Context.LemmaGetUnset | src/wordy/interpreter/EvaluationContext.java:27-37 | a new context, with or without a recording tracer, reads 0 for every name |
| Context.LemmaSetOrder | src/wordy/interpreter/EvaluationContext.java:20 | re-setting a name keeps its first-insertion place in the variable order |
| Context.LemmaSetIdempotent | src/wordy/interpreter/EvaluationContext.java:42-44 | setting a name to the same value twice is the same as once |
| Context.LemmaSetCommutes | src/wordy/interpreter/EvaluationContext.java:42-44 | setting two different names in either order leaves the same values |
| Parser.Normalize | src/wordy/parser/WordyParser.java:51-54 | input is lower-cased and every whitespace character becomes a space, position by position, with the length kept |
| Parser.LemmaNormalizeIdempotent | src/wordy/parser/WordyParser.java:52-54 | normalising twice is normalising once |
| Parser.LemmaSameNormalForm | src/wordy/parser/WordyParser.java:37-54 | two inputs with the same normal form, e.g. differing only in case or in the kind of whitespace, parse to the same result at all three entry points |
| Parser.OptionalSpace | src/wordy/parser/WordyParser.java:258-260 | skipping spaces never moves backwards or past the input |
| Parser.Surrounded | src/wordy/parser/WordyParser.java:262-264 | a punctuation mark with optional surrounding spaces consumes at least the mark |
| Parser.KeyPhrase | src/wordy/parser/WordyParser.java:245-252 | a key phrase, when it matches, consumes at least its first word |
| Parser.Number | src/wordy/parser/WordyParser.java:217-232 | a number starts with '-' or a digit, always yields a constant and consumes input |
| Parser.Variable | src/wordy/parser/WordyParser.java:234-243 | a variable is read exactly when the next character is a letter or '_', and its name is a run of such characters taken from the input |
| Parser.Expression | src/wordy/parser/WordyParser.java:151-153 | a parsed expression consumes input, and every variable name in it occurs in the input |
| Parser.Additive | src/wordy/parser/WordyParser.java:155-169 | as for `Expression`, for a sum or difference of products |
| Parser.AdditiveRest | src/wordy/parser/WordyParser.java:159-167 | the loop over further "plus"/"minus" operands never moves backwards and keeps names taken from the input |
| Parser.Multiplicative | src/wordy/parser/WordyParser.java:171-185 | as for `Expression`, for a product or quotient of powers |
| Parser.MultiplicativeRest | src/wordy/parser/WordyParser.java:175-183 | the loop over further "times"/"divided by" operands never moves backwards and keeps names taken from the input |
| Parser.Exponential | src/wordy/parser/WordyParser.java:188-204 | as for `Expression`, for an atom followed by powers and "squared" |
| Parser.ExponentialRest | src/wordy/parser/WordyParser.java:191-203 | the loop over "to the power of" and "squared" never moves backwards and keeps names taken from the input |
| Parser.Atom | src/wordy/parser/WordyParser.java:206-208 | a number, variable or parenthesised expression consumes input and takes its names from the input |
| Parser.Parens | src/wordy/parser/WordyParser.java:210-215 | a parenthesised expression consumes input and takes its names from the input |
| Parser.Block | src/wordy/parser/WordyParser.java:73-81 | a block holds at least one statement, consumes input and takes every name from the input |
| Parser.Items | src/wordy/parser/WordyParser.java:76-79 | the statements of a block are read without moving backwards; none were read exactly when nothing was consumed |
| Parser.Statement | src/wordy/parser/WordyParser.java:83-89 | a statement consumes input and takes every name from the input |
| Parser.Assignment | src/wordy/parser/WordyParser.java:141-149 | an assignment consumes input and its target and expression take their names from the input |
| Parser.Comparison | src/wordy/parser/WordyParser.java:96-100 | a comparison phrase, when it matches, consumes input |
| Parser.Conditional | src/wordy/parser/WordyParser.java:91-126 | a conditional consumes input and takes every name from the input |
| Parser.ElseBlock | src/wordy/parser/WordyParser.java:107-112 | a missing "else:" block consumes nothing and yields `BlockNode.EMPTY` |
| Parser.ElseStatement | src/wordy/parser/WordyParser.java:117-119 | a missing "else" statement consumes nothing and yields `BlockNode.EMPTY` |
| Parser.Loop | src/wordy/parser/WordyParser.java:128-135 | a loop consumes input and takes every name from the input |
| Parser.LoopExit | src/wordy/parser/WordyParser.java:137-139 | "exit loop" yields the loop-exit node |
| Reading.LemmaKeyPhraseSpaced | src/wordy/parser/WordyParser.java:245-252 | a key phrase matches with any number of spaces, none included, between and after its words, and ends where the spaces after its last word end |
| Reading.LemmaSurroundedSpaced | src/wordy/parser/WordyParser.java:258-264 | `OptionalSurroundingSpace(c)` matches any number of spaces, none included, on either side of `c` |
| Reading.LemmaSpacesAt | src/wordy/parser/WordyParser.java:258-260 | `OptionalSpace` skips exactly the whole run of spaces in front of it |
| Reading.LemmaKeyPhraseAt | src/wordy/parser/WordyParser.java:245-252 | a key phrase written with single spaces matches and ends after the spaces that follow it |
| Reading.LemmaNumberAt | src/wordy/parser/WordyParser.java:217-232 | the text `['-'] digits ['.' digits]` is read as the constant of exactly that decimal value |
| Reading.LemmaVariableAt | src/wordy/parser/WordyParser.java:234-243 | a lower-case name is read as that variable, both as a `Variable` and as an `Atom` |
| Names.LemmaStmtLowerNames | src/wordy/parser/WordyParser.java:52-53 | every variable of a statement parsed from normalised input has a lower-case name |
| Names.LemmaExprLowerNames | src/wordy/parser/WordyParser.java:52-53 | every variable of an expression parsed from normalised input has a lower-case name |
| Entry.LemmaProgramResult | src/wordy/parser/WordyParser.java:37-39 | a parsed program is a block of at least one statement spanning all of the normalised input, with lower-case names |
| Entry.LemmaProgramWhole | src/wordy/parser/WordyParser.java:69-71 | conversely, a block spanning the normalised input after leading spaces is what `parseProgram` returns |
| Entry.LemmaStatementResult | src/wordy/parser/WordyParser.java:41-43 | a parsed statement spans all of the normalised input, with lower-case names |
| Entry.LemmaStatementWhole | src/wordy/parser/WordyParser.java:41-43 | conversely, a statement spanning the normalised input is what `parseStatement` returns |
| Entry.LemmaExpressionResult | src/wordy/parser/WordyParser.java:45-47 | a parsed expression spans all of the normalised input, with lower-case names |
| Entry.LemmaExpressionWhole | src/wordy/parser/WordyParser.java:45-47 | conversely, an expression spanning the normalised input is what `parseExpression` returns |
| Entry.LemmaBlankRejected | src/wordy/parser/WordyParser.java:55-63 | empty or all-whitespace input is an error at all three entry points |
| Entry.LemmaEmptyProgramRejected | test/wordy/parser/WordyParserTest.java:244 | the empty program is an error |
| Entry.LemmaNumberRead | src/wordy/parser/WordyParser.java:217-232 | any numeral with optional sign and fraction parses as the constant of its decimal value |
| Entry.LemmaDoubleDotRejected | src/wordy/parser/WordyParser.java:222-224 | a whole number followed by two dots is never an expression |
| Entry.LemmaNumber37 | test/wordy/parser/WordyParserTest.java:25 | "37" parses as 37 |
| Entry.LemmaNumber37Point2 | test/wordy/parser/WordyParserTest.java:26 | "37.2" parses as 37.2 |
| Entry.LemmaNegative37Point2 | test/wordy/parser/WordyParserTest.java:27 | "-37.2" parses as -37.2 |
| Entry.LemmaDoubleDot37 | test/wordy/parser/WordyParserTest.java:28 | "-37..2" is an error |
| Entry.LemmaIsEqualToAt | src/wordy/parser/WordyParser.java:97-98 | "is equal to" is read as the same equality comparison as "equals" |
| Entry.LemmaMissingElse | src/wordy/parser/WordyParser.java:103-113 | a block-form conditional with no "else:" part gets `BlockNode.EMPTY` as its else-branch |
| Wording.LemmaReadShow | src/wordy/parser/WordyParser.java:206-215 | every printable expression, written out fully parenthesised in Wordy words, is read back as exactly that expression |
| Wording.LemmaShowExpression | src/wordy/parser/WordyParser.java:45-47 | `parseExpression` inverts the Wordy rendering of every printable expression |
| Sentences.LemmaShowProgram | src/wordy/parser/WordyParser.java:69-81 | `parseProgram` inverts the Wordy rendering of every non-empty block of canonical statements |
| Sentences.LemmaShowStatement | src/wordy/parser/WordyParser.java:83-149 | `parseStatement` inverts the Wordy rendering of every canonical statement: assignments, block-form conditionals with or without else, loops and loop exits |
| Precedence.LemmaTwoOperands | src/wordy/parser/WordyParser.java:155-204 | two operands around any operator, written without parentheses, parse to that one binary node |
| Precedence.LemmaThreeOperands | src/wordy/parser/WordyParser.java:155-204 | three operands with two operators group by precedence and associativity: the tighter operator binds first, equal levels group left, and powers group right |
| Precedence.LemmaLeftFirst | src/wordy/parser/WordyParser.java:159-183 | with a first operator at least as tight as a second non-power one, the first pair groups first |
| Precedence.LemmaPowerLast | src/wordy/parser/WordyParser.java:193-198 | a power after any operator takes the operand before it as its base |
| Precedence.LemmaProductLast | src/wordy/parser/WordyParser.java:155-185 | a product after a sum binds first |
| Precedence.LemmaProductsLeft | src/wordy/parser/WordyParser.java:175-183 | two products or quotients group to the left |
| Precedence.LemmaSumsLeft | src/wordy/parser/WordyParser.java:159-167 | two sums or differences group to the left |
| Precedence.LemmaSquared | src/wordy/parser/WordyParser.java:199-203 | an operand followed by n times "squared" is n nested powers of 2, innermost first |
| Precedence.LemmaPowerOfSquared | src/wordy/parser/WordyParser.java:193-203 | in "a to the power of b squared…" the squares apply to the exponent b, not to the power |
| Precedence.LemmaMinusThenPlus | test/wordy/parser/WordyParserTest.java:79-87 | "1 minus 2 plus 3" is (1 - 2) + 3 |
| Precedence.LemmaMinusThenDividedBy | test/wordy/parser/WordyParserTest.java:88-96 | "1 minus 2 divided by 3" is 1 - (2 / 3) |
| Precedence.LemmaParenthesesFirst | test/wordy/parser/WordyParserTest.java:97-105 | "(1 minus 2) divided by 3" is (1 - 2) / 3 |
| Precedence.LemmaPowersGroupRight | test/wordy/parser/WordyParserTest.java:106-114 | "x to the power of y to the power of z" is x^(y^z) |
| Precedence.LemmaSquaredSquared | test/wordy/parser/WordyParserTest.java:115-123 | "x squared squared" is (x^2)^2 |
| Precedence.LemmaExponentSquared | test/wordy/parser/WordyParserTest.java:124-132 | "y to the power of z squared" is y^(z^2) |
| Variables.LemmaVisitAllIsUnion | src/wordy/ast/ASTNode.java:37-43 | the variables visited over a list of nodes are the union of each node's variables |
| Variables.LemmaVariablesFromChildren | src/wordy/ast/ASTNode.java:31-43 | a node's variables are itself, if it is a variable, plus those of its children |
| Variables.LemmaExprVariables | src/wordy/ast/ASTNode.java:31-43 | the variables of an expression are exactly the names it mentions |
| Variables.LemmaStmtVariables | src/wordy/ast/ASTNode.java:31-43 | the variables of a statement are exactly the names it mentions, assignment targets included |
| Variables.LemmaLoopVariables | src/wordy/ast/LoopNode.java:23-26 | a loop's variables are those of its body |
| Variables.LemmaCondFromChildren | src/wordy/ast/ConditionalNode.java:38-45 | a conditional's variables are the union of those of its operands and branches |
| Variables.LemmaNodeVariables | src/wordy/ast/ASTNode.java:31-43 | for every node, the traversal result equals the names the node mentions |
| Variables.LemmaLeafVariables | src/wordy/ast/ASTNode.java:37-39 | a variable's set is just itself; a constant's and a loop exit's are empty |
| Variables.LemmaAssignmentTargetCounts | src/wordy/ast/AssignmentNode.java:28-33 | an assignment's target is one of its variables, along with those of its expression |
| Dump.Connector | src/wordy/ast/ASTNode.java:63 | the last child is drawn with "└─", every other child with "├─" |
| Dump.Continuation | src/wordy/ast/ASTNode.java:64 | below the last child the column is blank, below the others it continues with "│" |
| Dump.HeadLine | src/wordy/ast/ASTNode.java:59-77 | a node's line starts with the indent and ends with its class and attributes; the root has no connector or label, a child has connector, label and ": " |
| Dump.ChildIndent | src/wordy/ast/ASTNode.java:64-71 | a child's children are indented past the parent's indent by the connector column and the label plus two |
| Dump.LemmaLinesFollowPreOrder | src/wordy/ast/ASTNode.java:58-84 | the dump has one line per node in pre-order, each ending with that node's header and starting with its ancestor's indent |
| Dump.LemmaLinesShape | src/wordy/ast/ASTNode.java:58-84 | a subtree's first line is its own head line and it has one line per node |
| Dump.LemmaChildLineAt | src/wordy/ast/ASTNode.java:79-82 | the j-th child's first line carries its label and the "last child" connector exactly for the final child |
| Dump.LemmaRootLine | src/wordy/ast/ASTNode.java:54-56 | the dump starts with the root's header on a line of its own |
| Dump.LemmaDumpLineCount | src/wordy/ast/ASTNode.java:54-56 | the dump has exactly as many lines as the tree has nodes |
| Interpreter.Evaluate | src/wordy/ast/ExpressionNode.java:23-32 | a finished evaluation changes no variable and keeps the tracer; it only appends to the trace, and the default tracer leaves it unchanged |
| Interpreter.DoEvaluate | src/wordy/ast/BinaryExpressionNode.java:68-85 | the same frame condition for the untraced evaluation step |
| Interpreter.PowLoop | src/wordy/ast/BinaryExpressionNode.java:77-83 | the same frame condition for the exponent loop, while its counter is a valid `int` |
| Interpreter.LemmaEvaluateMeaning | src/wordy/ast/BinaryExpressionNode.java:68-85 | `evaluate` finishes exactly when the expression has a value under the reference semantics, and then returns that value |
| Interpreter.LemmaDoEvaluateMeaning | src/wordy/ast/BinaryExpressionNode.java:68-85 | the same agreement for `doEvaluate` |
| Interpreter.LemmaPowLoopNoBound | src/wordy/ast/BinaryExpressionNode.java:79 | when the exponent never finishes evaluating, neither does the loop |
| Interpreter.LemmaPowLoopMeaning | src/wordy/ast/BinaryExpressionNode.java:77-83 | from counter i the loop multiplies the running result by the base once per whole number from i up to the exponent rounded up; past the `int` range it never finishes |
| Interpreter.LemmaPowMeaning | src/wordy/ast/BinaryExpressionNode.java:77-83 | the reference value of a power is fixed by the values of its operands |
| Interpreter.LemmaPowValueCases | src/wordy/ast/BinaryExpressionNode.java:78-82 | an exponent of at most 1 gives the base itself; an exponent beyond the `int` range gives no value; a whole exponent from 1 gives the ordinary power |
| Interpreter.LemmaEvaluateIsDoEvaluate | src/wordy/ast/ExpressionNode.java:23-32 | `evaluate` returns what `doEvaluate` returns after the STARTED event |
| Interpreter.LemmaEvaluateBrackets | src/wordy/ast/ExpressionNode.java:24-30 | with a recording tracer, a finished evaluation's trace starts with the node's STARTED event and ends with its COMPLETED event carrying the result |
| Interpreter.LemmaEvaluateEvents | src/wordy/ast/ExpressionNode.java:23-32 | every event `evaluate` records is about the expression itself or an expression inside it |
| Interpreter.LemmaDoEvaluateEvents | src/wordy/ast/BinaryExpressionNode.java:68-85 | every event `doEvaluate` records is about an expression strictly inside the one evaluated, traced by its operands' own `evaluate` |
| Interpreter.LemmaPowLoopEvents | src/wordy/ast/BinaryExpressionNode.java:77-83 | every round of the exponent loop records only events about expressions inside its two operands |
| Interpreter.LemmaDoEvaluateNoOwnEvent | src/wordy/ast/ExpressionNode.java:37 | `doEvaluate` never records a STARTED or COMPLETED event for the expression it evaluates, whatever its shape |
| Interpreter.Run | src/wordy/ast/StatementNode.java:8-10 | a finished run keeps the tracer and only appends to the trace |
| Interpreter.DoRun | src/wordy/ast/ConditionalNode.java:80-103 | the same frame condition for running a statement's own step |
| Interpreter.RunAll | src/wordy/ast/BlockNode.java:18 | the same frame condition for running a block's statements in order |
| Interpreter.Repeat | src/wordy/ast/LoopNode.java:48-58 | the same frame condition for the loop |
| Execution.LemmaRunIsDoRun | src/wordy/ast/StatementNode.java:8-10 | `run` ends the way its `doRun` ends and leaves the same variables |
| Execution.LemmaRunBrackets | src/wordy/ast/StatementNode.java:8-10 | with a recording tracer, a finished run's trace starts with STARTED and ends with COMPLETED for that statement |
| Execution.LemmaAssign | src/wordy/ast/AssignmentNode.java:28-33 | an assignment whose value exists stores it in the target and changes nothing else; one whose value never finishes never finishes |
| Execution.LemmaRunAllAppend | src/wordy/ast/BlockNode.java:18 | running two statement lists in a row is running the first and, if it ends normally, the second |
| Execution.AfterOperands | src/wordy/ast/ConditionalNode.java:82-83 | evaluating the two operands changes no variable |
| Execution.LemmaCondOneBranch | src/wordy/ast/ConditionalNode.java:86-102 | a conditional runs exactly the branch its comparison selects |
| Execution.LemmaCondEmptyElse | src/wordy/ast/BlockNode.java:16 | a conditional whose comparison fails and whose else-branch is `BlockNode.EMPTY` changes nothing |
| Execution.LemmaCondOperandsUntraced | src/wordy/ast/ConditionalNode.java:82-83 | a conditional whose operands are constants or variables records nothing for them and runs the selected branch in the same context |
| Execution.LemmaOperandEvents | src/wordy/ast/ConditionalNode.java:82-83 | for operands of any shape, the left operand's `doEvaluate` records only events about expressions strictly inside it, and the right operand's, after those, only events about expressions strictly inside the right operand |
| Execution.LemmaExitSignals | src/wordy/ast/LoopExitNode.java:19-22 | "exit loop" raises the exit signal and changes no variable |
| Execution.LemmaRepeatNeverExits | src/wordy/ast/LoopNode.java:50-57 | the loop catches the exit signal, so the signal never escapes it |
| Execution.LemmaLoopNeverExits | src/wordy/ast/LoopNode.java:48-58 | neither `doRun` nor `run` of a loop ever ends with the exit signal |
| Execution.LemmaNoFreeExit | src/wordy/interpreter/LoopExited.java:7 | a statement with no "exit loop" outside a loop never raises the signal |
| Execution.LemmaRunFuel | src/wordy/ast/LoopNode.java:50-57 | more fuel never changes a run that finished: the bound only cuts off non-termination |
| JavaMeaning.LemmaJavaAgrees | src/wordy/ast/BinaryExpressionNode.java:87-119 | with `Math.pow` for whole exponents, the compiled expression computes the interpreter's value whenever every exponent is a whole number of at least 1 |
| JavaMeaning.LemmaConstExponentsWhole | src/wordy/ast/BinaryExpressionNode.java:112-118 | constant whole exponents of at least 1, the only kind "squared" produces, meet that condition in every context |
| JavaMeaning.LemmaZeroExponent | src/wordy/ast/BinaryExpressionNode.java:77-83 | the interpreter gives `a to the power of 0` the value a, the compiled code gives 1, and these differ unless a is 1 |
| JavaMeaning.LemmaExecAgrees | src/wordy/ast/LoopNode.java:60-65 | for programs with constant whole exponents, running the compiled Java and interpreting end the same way with the same variables |
| JavaMeaning.LemmaRunAgrees | src/wordy/ast/StatementNode.java:8-10 | the same agreement for the traced `run` with the default tracer |
| JavaMeaning.LemmaExecAllAgrees | src/wordy/ast/ConditionalNode.java:132-140 | the same agreement for a statement list |
| JavaMeaning.LemmaLoopAgrees | src/wordy/ast/LoopNode.java:48-65 | `while (true)` with `break;` behaves like the interpreted loop |
| Emitter.Symbol | src/wordy/ast/BinaryExpressionNode.java:88-118 | each operator prints a separator that starts with a space or comma |
| Emitter.CompileExpr | src/wordy/ast/BinaryExpressionNode.java:87-119 | an expression compiles to `print` calls only, never a line break, at least one |
| Emitter.Code | src/wordy/ast/BinaryExpressionNode.java:87-119 | the printed text is non-empty unless `fmt` prints a constant as nothing |
| Emitter.CompileStmt | src/wordy/ast/ConditionalNode.java:105-165 | every statement's compiled output starts with a write, so the writer's pending indent lands on it |
| Emitter.CompileLines | src/wordy/ast/ConditionalNode.java:135-138 | a braced block prints at least one operation per statement |
| Emitter.CompileBranch | src/wordy/ast/ConditionalNode.java:126-143 | a branch's output, braced or not, starts with a write |
| Emitter.LemmaCompiledText | src/wordy/ast/BinaryExpressionNode.java:87-119 | the text printed for an expression is its fully parenthesised Java form |
| Emitter.LemmaExprIndented | src/wordy/compiler/IndentingPrintWriter.java:20-27 | through the indenting writer an expression gets at most one prefix, before its first character, and leaves no indent pending |
| Emitter.LemmaCodeUnique | src/wordy/ast/BinaryExpressionNode.java:87-119 | the compiled text of an expression, followed by any proper continuation, determines the expression and the continuation |
| Emitter.LemmaCodeInjective | src/wordy/ast/BinaryExpressionNode.java:87-119 | different expressions compile to different Java text, when `fmt` prints distinct numbers distinctly, as literals starting with a digit or '-', and names hold no space, bracket or comma |
| Compiler.PerName | src/wordy/compiler/WordyCompiler.java:63-79 | one generated piece per variable, in iteration order |
| Compiler.Compile | src/wordy/compiler/WordyCompiler.java:37-87 | the class text is the header, the program through the indenting writer, the context class's opening, the member blocks in `order`, and the closing braces |
| Compiler.LemmaConcatAround | src/wordy/compiler/WordyCompiler.java:63-79 | the member text is the fields, then the blank line, then the accessor pairs |
| Compiler.LemmaOncePerName | src/wordy/compiler/WordyCompiler.java:63-79 | each name's piece occurs exactly once when the names are listed once each |
| Compiler.LemmaOneFieldPerVariable | src/wordy/compiler/WordyCompiler.java:63-65 | among the member blocks `Compile` prints, there is exactly one field block per variable of the program and none for other names |
| Compiler.LemmaOneAccessorPairPerVariable | src/wordy/compiler/WordyCompiler.java:67-79 | among the member blocks `Compile` prints, there is exactly one getter/setter block per variable of the program and none for other names |
| Compiler.LemmaMembersOf | src/wordy/compiler/WordyCompiler.java:63-79 | for any names listed once each, the member blocks hold one field block and one getter/setter block per name and none for other names |
| Compiler.LemmaFieldNotAccessors | src/wordy/compiler/WordyCompiler.java:63-79 | a field block is never a getter/setter block |
| Compiler.LemmaRunBodyIndented | src/wordy/compiler/WordyCompiler.java:49-50 | the program body starts with the eight-space indent followed by its first output |
| Writer.LemmaIndentedAppend | src/wordy/compiler/IndentingPrintWriter.java:12-33 | writing two runs of operations in a row is writing the first and then the second from the pending state it leaves |
| Writer.LemmaFirstWrite | src/wordy/compiler/IndentingPrintWriter.java:13 | a new writer puts the prefix before its first write |
| Writer.LemmaWriteAfterPrintLine | src/wordy/compiler/IndentingPrintWriter.java:29-33 | after `println(String)` the next write is prefixed |
| Writer.LemmaPassThrough | src/wordy/compiler/IndentingPrintWriter.java:20-27 | with no indent pending, writes pass through unchanged |
| Writer.LemmaBareNewLine | src/wordy/compiler/IndentingPrintWriter.java:29-33 | `println()` without an argument does not make the next write prefixed |
| Writer.LemmaPrefixBound | src/wordy/compiler/IndentingPrintWriter.java:20-33 | the prefix is inserted at most once per `println(String)`, plus once at the start |
| Writer.LemmaEmptyPrefix | src/wordy/compiler/IndentingPrintWriter.java:12-27 | with an empty prefix the writer is a plain `PrintWriter` |
| Writer.LemmaOnlyPrefixesInserted | src/wordy/compiler/IndentingPrintWriter.java:20-27 | the output is the plain output plus exactly one prefix per insertion, nothing else |
| Writer.LemmaWriteAt | src/wordy/compiler/IndentingPrintWriter.java:20-27 | a write gets the prefix exactly when an indent is pending before it |
| Writer.LemmaPrintsJoin | src/wordy/compiler/IndentingPrintWriter.java:20-27 | two consecutive prints write the same as one print of their concatenation |
| Writer.LemmaPrintsOnly | src/wordy/compiler/IndentingPrintWriter.java:20-27 | a run of prints gets at most the one pending prefix, and leaves none pending |
| Scenarios.LemmaRunAssign | test/wordy/interpreter/InterpreterTest.java:42-48 | running an assignment stores the expression's value in the target and leaves every other variable |
| Scenarios.LemmaIncrement | test/wordy/interpreter/InterpreterTest.java:90 | "set x to x plus 1" adds one to x |
| Scenarios.LemmaCheckTen | test/wordy/interpreter/InterpreterTest.java:90 | "if x equals 10 then exit loop" signals exactly when x is 10 and changes nothing |
| Scenarios.LemmaWholePower | test/wordy/interpreter/InterpreterTest.java:37-38 | a whole exponent n ≥ 2 gives the n-th power |
| Scenarios.LemmaPlusPower | test/wordy/interpreter/InterpreterTest.java:90 | "y plus x to the power of n" means y + xⁿ |
| Scenarios.LemmaAccumulate | test/wordy/interpreter/InterpreterTest.java:90 | "set y to y plus x squared" adds x² to y |
| Scenarios.LemmaCountingLoop | test/wordy/interpreter/InterpreterTest.java:88-93 | the loop test ends normally with x = 10 and y = 285 |
| Scenarios.LemmaEither | test/wordy/interpreter/InterpreterTest.java:60-62 | one comparison line sets its variable to x or decrements it, and changes nothing else |
| Scenarios.LemmaComparingProgram | test/wordy/interpreter/InterpreterTest.java:57-81 | the comparisons program leaves x alone and updates lt, eq and gt by their comparisons with 12 |
| Scenarios.LemmaComparisonsExample | test/wordy/interpreter/InterpreterTest.java:64-80 | with x = 11, 12, 13 in turn, lt/eq/gt become 11/-1/-1, then 10/12/-2, then 9/11/13 |
| Scenarios.LemmaTwoNames | test/wordy/compiler/CompilerTest.java:100 | "y times z" names y and z |
| Scenarios.LemmaAssignTwoNames | test/wordy/compiler/CompilerTest.java:100 | "set x to y times z" names x, y and z |
| Scenarios.LemmaComputeXVariables | test/wordy/compiler/CompilerTest.java:99-102 | `findAllVariables` of "Set z to 3. Set x to y times z." is exactly {x, y, z} |
| Scenarios.LemmaComputeXMembers | test/wordy/compiler/CompilerTest.java:99-102 | for any iteration order of that program's variables {x, y, z}, the generated class has one field block and one getter/setter block for each of x, y and z, and none for other names |
| Scenarios.LemmaComputeXCompiled | test/wordy/compiler/CompilerTest.java:105-108 | the compiled program, run with y = 127, leaves x = 381 |
| Scenarios.LemmaComputeXInterpreted | test/wordy/compiler/CompilerTest.java:99-108 | the interpreter agrees: the same program from y = 127 leaves x = 381 |
| CodeExamples.LemmaSumCode | test/wordy/compiler/CompilerTest.java:30-32 | "x plus 1" compiles to "(context.x + 1.0)" |
| CodeExamples.LemmaOperatorCode | src/wordy/ast/BinaryExpressionNode.java:87-119 | the four arithmetic operators print infix as "(l + r)", "(l - r)", "(l * r)" and "(l / r)", and the power prints as "Math.pow(l, r)" |
| CodeExamples.LemmaNestedCode | test/wordy/compiler/CompilerTest.java:33-35 | "2 minus (x plus 3)" compiles to "(2.0 - (context.x + 3.0))" |
| CodeExamples.LemmaAssignCode | test/wordy/compiler/CompilerTest.java:47-55 | an assignment compiles to "context.<name> = <expression>;" |
| CodeExamples.LemmaAssignExample | test/wordy/compiler/CompilerTest.java:52-54 | "set foo to bar minus 10" compiles to "context.foo = (context.bar - 10.0);" |
| CodeExamples.LemmaExitCode | test/wordy/compiler/CompilerTest.java:82-87 | "exit loop" compiles to "break;" |
| CodeExamples.LemmaCondCode | src/wordy/ast/ConditionalNode.java:105-165 | every conditional compiles to "if(", the comparison, ") ", the true branch, " else " and the false branch, each branch under the brace rules |
| CodeExamples.LemmaLoopCode | src/wordy/ast/LoopNode.java:60-65 | a loop compiles to "while (true) " followed by its body |
| CodeExamples.LemmaLinesCode | src/wordy/ast/ConditionalNode.java:135-138 | the statements of a braced block print one after another, each followed by a line break |
| CodeExamples.LemmaBlockCode | src/wordy/ast/ConditionalNode.java:133-139 | a block prints "{" and a line break, each statement on a line of its own, then "}" |
| CodeExamples.LemmaBranchCode | src/wordy/ast/ConditionalNode.java:126-161 | a branch that is an empty block prints "{}"; a one-statement block prints the statement without braces; a longer block prints braces with one statement per line; any other statement prints as itself |
| CodeExamples.LemmaMissingElseCode | test/wordy/compiler/CompilerTest.java:69-71 | "if x is less than 12 then set a to x", whose else branch is the empty block, compiles to "if(context.x < 12.0) context.a = context.x; else {}" |
| CodeExamples.LemmaBothBranchesCode | test/wordy/compiler/CompilerTest.java:66-68 | both single-statement branches print without braces: "if(context.x < 12.0) context.a = context.x; else context.b = 0.0;" |
| CodeExamples.LemmaBracedBranchesCode | test/wordy/compiler/CompilerTest.java:72-79 | two-statement branches print in braces with one statement per line |
| CodeExamples.LemmaBlockExample | test/wordy/compiler/CompilerTest.java:57-62 | "set x to 17. set y to x squared." prints "{", "context.x = 17.0;", "context.y = Math.pow(context.x, 2.0);" and "}" on lines of their own |
| CodeExamples.LemmaLoopExample | test/wordy/compiler/CompilerTest.java:89-94 | "loop: set x to x plus 1. end of loop" prints "while (true) " and then the body in braces |

## Left out

- The parboiled runtime is left out. That covers error recovery, parse-error messages and
  positions, and `ParseException`; a failed parse is `None`. The rule functions model one
  deterministic reading of the PEG.
- Parser.Expression: the grammar rule functions' own contracts state only progress and where
  names come from. What they build is stated by the round-trip and precedence lemmas
  (`Wording`, `Sentences`, `Precedence`, `Entry`).
- Parser.OptionalSpace: as for `Parser.Expression`.
- Parser.Surrounded: as for `Parser.Expression`.
- Parser.KeyPhrase: as for `Parser.Expression`.
- Parser.Number: as for `Parser.Expression`.
- Parser.Additive: as for `Parser.Expression`.
- Parser.AdditiveRest: as for `Parser.Expression`.
- Parser.Multiplicative: as for `Parser.Expression`.
- Parser.MultiplicativeRest: as for `Parser.Expression`.
- Parser.Exponential: as for `Parser.Expression`.
- Parser.ExponentialRest: as for `Parser.Expression`.
- Parser.Atom: as for `Parser.Expression`.
- Parser.Parens: as for `Parser.Expression`.
- Parser.Block: as for `Parser.Expression`.
- Parser.Items: as for `Parser.Expression`.
- Parser.Statement: as for `Parser.Expression`.
- Parser.Assignment: as for `Parser.Expression`.
- Parser.Comparison: as for `Parser.Expression`.
- Parser.Conditional: as for `Parser.Expression`.
- Parser.Loop: as for `Parser.Expression`.
- Interpreter.Evaluate: the contract is a frame condition. The value is stated by
  `Interpreter.LemmaEvaluateMeaning` against the reference semantics `Denote`.
- Interpreter.DoEvaluate: as for `Interpreter.Evaluate`, through `Interpreter.LemmaDoEvaluateMeaning`.
- Interpreter.PowLoop: as for `Interpreter.Evaluate`, through `Interpreter.LemmaPowLoopMeaning`.
- Interpreter.Run: the contract is a frame condition. What a statement does is stated by the
  `Execution` lemmas and by `JavaMeaning.LemmaRunAgrees`.
- Interpreter.DoRun: as for `Interpreter.Run`.
- Interpreter.RunAll: as for `Interpreter.Run`, with `Execution.LemmaRunAllAppend`.
- Interpreter.Repeat: as for `Interpreter.Run`, with `Execution.LemmaRepeatNeverExits`.
- Emitter.CompileExpr: the contract states the shape of the output. Its text is stated by
  `Emitter.LemmaCompiledText` and `Emitter.LemmaCodeInjective`.
- Emitter.CompileStmt: the contract states that the output starts with a write. Its text is
  stated by `CodeExamples.LemmaAssignCode`, `LemmaBlockCode`, `LemmaCondCode`, `LemmaLoopCode`
  and `LemmaExitCode`, and its meaning by `JavaMeaning.LemmaExecAgrees`.
- Emitter.CompileLines: the contract bounds the output's length. Its text is stated by
  `CodeExamples.LemmaLinesCode`.
- Emitter.CompileBranch: the contract states that the output starts with a write. The brace
  rules are stated by `CodeExamples.LemmaBranchCode`.
- Emitter.Code: the contract states non-emptiness only. The text is characterised by `Emitter.LemmaCodeUnique`.
- Wording.LemmaShowExpression: the round trip covers printable expressions only. These have
  whole constants and lower-case names, and are written fully parenthesised.
- Sentences.LemmaShowStatement: the round trip covers canonical statements with single spaces
  and block-form conditionals. The single-statement conditional form is parsed but not
  round-tripped.
- The long precedence test (test/wordy/parser/WordyParserTest.java:133-153) and the whitespace
  tests (263-278) are not instantiated as whole programs. Normalisation
  (`Parser.LemmaSameNormalForm`) covers only letter case and the kind of whitespace. The
  amount of space is covered rule by rule: key phrases, punctuation and everything after a
  number or a name accept any run of spaces, none included (`Reading.LemmaKeyPhraseSpaced`,
  `Reading.LemmaSurroundedSpaced`, `Reading.LemmaSpacesAt`). The whole-statement round trips
  use single spaces.
- "set y to x squared" giving 289 and the blocks test (InterpreterTest 42-55) are covered by
  the general assignment and power lemmas only.
- Several IEEE 754 details are left out:
  - `Double.parseDouble` rounding (constants are exact reals);
  - NaN, infinities and -0.0;
  - division by zero, which is the parameter `dz`;
  - `Double.toString`, which is the parameter `fmt`.
- `hashCode` and `toString` of the nodes are not modelled. `equals` is modelled
  (`Ast.LemmaExprEqualsIsEquality`).
- Interpreter.Evaluate: the COMPLETED event is recorded only on normal completion. In the
  sources only a tracer that cancels execution raises inside `evaluate`, and tracers are not
  modelled beyond recording.
- Tracer callbacks are not modelled as code: they cannot see or change the context. The
  demo's cancellation (`ExecutionCancelledException`) and threads are left out.
- Interpreter.Run: non-termination is modelled by `fuel`. `OutOfFuel` stands for a loop that
  never exits and for an exponent beyond the 32-bit counter, where the Java counter wraps and
  never stops.
- Compiler.Compile: the iteration order of the `HashSet` from `findAllVariables` is the
  parameter `order`. The member blocks are counted as blocks (`Compiler.MemberBlocks`), not as
  occurrences inside the concatenated text.
- Dynamic compilation of the generated class (`WordyCompiler.compile` with a context
  interface, and `WordyExecutable`) runs the Java compiler. Its effect is modelled by
  `JavaMeaning.Exec`, not by compiling.
- `CompilationException` is not modelled.
- The compiler tests compare output after whitespace normalisation. That normalisation is not
  modelled; `LemmaLoopCode` shows the actual "while (true) " spacing.
- Emitter.LemmaCodeInjective: this holds only for a `fmt` that prints distinct numbers
  distinctly, as literals without spaces, brackets or commas.
- Lower-casing covers ASCII letters only. `String.toLowerCase` on other scripts is not
  modelled.
- The demo (`Playground`, the shader code) and `ShaderParser` are not part of this model.
