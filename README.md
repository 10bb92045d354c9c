# config_parser in Dafny

`config_parser.py` processes a small line-oriented configuration language, one line at a time:

- `global <name> = <value>;` declares a constant. The value is a decimal number, the name of a constant already declared, or `array(v1, ..., vk)`.
- `^ <postfix expression>` evaluates an expression over numbers and declared names with `+ - * / mod max`.
- Blank lines and lines starting with `#` are skipped.

The class `ConfigParser` keeps two stores, a symbol table `constants` and an XML tree under a `config` root. Every successful declaration writes its binding into the table and appends one `constant` node to the tree.

The model follows the structure of the program:

| file | module | models |
|---|---|---|
| `results.dfy` | `Results` | the error kinds, `Result`, `Option` |
| `text.dfy` | `Text` | the string built-ins the code relies on: `str.isdigit`, `int`, `str`, `strip`, `split(",")`, `split()` |
| `values.dfy` | `Values` | the value type, `parse_value`, `parse_array`, and Python's `str()` of a value |
| `declaration.dfy` | `Declaration` | a hand-written matcher for the declaration regex at line 44 |
| `expression.dfy` | `Expression` | the postfix evaluator as functions: token classification, one step, the run |
| `document.dfy` | `Document` | the element tree and the node `add_to_xml` builds |
| `parser.dfy` | `Parser` | the class `ConfigParser`: its fields, its methods, and the invariant tying the table to the tree |

The pure parts of the source are functions with lemmas. These are `parse_value`, `parse_array`, the regex match and the evaluator's semantics. The parts that change state are methods of the class `Parser.ConfigParser`, with `modifies` clauses:

- `ParseGlobal` assigns into the table and appends to the tree.
- `AddToXml` builds the child list in a loop.
- `EvaluateExpression` is the source's `for` loop over the tokens with a local stack. It is proved equal to `Expression.Evaluate`.
- `ParseLine` dispatches each line.

The class invariant `Valid` says three things:

- The table binds only identifiers, to well-formed values. These are non-negative integers and non-empty lists.
- For every name, the last tree node for that name describes the table's value.
- Every node is a `constant` node.

`ParseGlobal` and `ParseLine` require it and restore it, the constructor establishes it, and `EvaluateExpression` changes nothing. `AddToXml` on its own only appends a node; `ParseGlobal` calls it after updating the table, which is what keeps the invariant.

Python semantics are written out where they matter:

- `//` and `%` round towards negative infinity (`FloorDiv`, `FloorMod`).
- `\s`, `strip` and `split()` use the ASCII characters Python counts as whitespace: space, `\t`, `\n`, `\v`, `\f`, `\r` and `\x1c`-`\x1f`. `isdigit` accepts `0`-`9`.
- `.` in the regex excludes `\n`.
- The greedy `(.+);` runs to the last `;`. The `\s*` before the value gives characters back only when no `;` follows otherwise.
- `max(a, b)` keeps `a` unless `b > a`.
- Operators applied to list-valued constants behave as in Python, within the limits listed under "## Left out":
  - `+` concatenates two lists.
  - `*` repeats a list by an integer, on either side.
  - `max` compares lexicographically.
  - Any other mix of list and integer is a type error.

Failures are values of `Results.Error`. The first five correspond to the `SyntaxError`s the source raises:

| error | raised when |
|---|---|
| `UnknownSyntax` | a line is of no known kind |
| `InvalidDeclaration` | the regex fails |
| `InvalidValue` | a value text is not understood |
| `UnknownToken` | an expression token is not understood |
| `InvalidExpression` | the final stack does not hold exactly one value |
| `StackUnderflow` | Python's `IndexError` from `pop` |
| `ZeroDivision` | Python's `ZeroDivisionError` |
| `TypeMismatch` | Python's `TypeError` |

The last three are not `SyntaxError`s in Python, so the command-line handler would not catch them.

Behaviours of the code worth knowing:

- `array()` is rejected, because its one empty piece is no value (`Values.EmptyArrayRejected`).
- Arrays split on every comma, so an inline nested array with more than one element fails. Only inner arrays without a comma can be written inline, such as `array(array(1))`; other nested lists arise through a declared name.
- A nested list becomes one `value` child whose text is Python's list repr `[1, 2]`, not a nested group of nodes.
- There are no negative literals: the token `-10` is unknown (`Expression.NegativeTokenUnknown`).

## Model

| member | source | states |
|---|---|---|
| Text.NatString | config_parser.py:132 | `str(n)` of a natural number is a non-empty digit string |
| Text.DigitChar | config_parser.py:132 | the character of a digit is an ASCII digit that reads back as that digit |
| Text.NatStringRoundTrip | config_parser.py:64-65 | the decimal form of `n` passes `isdigit` and `int` reads it back as `n` |
| Text.DecimalStringRoundTrip | config_parser.py:130-132 | `str(n)` is a digit string exactly when `n >= 0`, and then reads back as `n` |
| Text.TrimLeft | config_parser.py:80 | removing leading whitespace never lengthens the text and leaves it empty or starting with a non-whitespace character |
| Text.TrimLeftSpec | config_parser.py:80 | removing leading whitespace drops a prefix made only of whitespace and keeps the rest as it was |
| Text.TrimRight | config_parser.py:80 | removing trailing whitespace never lengthens the text |
| Text.TrimRightSpec | config_parser.py:80 | removing trailing whitespace drops a suffix made only of whitespace, keeps the rest as it was, and leaves no whitespace at the end |
| Text.Strip | config_parser.py:80 | `strip()` never lengthens its argument |
| Text.StripSpec | config_parser.py:80 | the stripped text neither starts nor ends with whitespace; it is empty exactly when the text is all whitespace; text without whitespace is unchanged |
| Text.Split | config_parser.py:80 | `split(",")` gives one more piece than there are commas, none longer than the text |
| Text.SplitSpec | config_parser.py:80 | no piece holds the separator, and the pieces joined with it give back the text |
| Text.SplitPrefix | config_parser.py:80 | a separator-free prefix followed by the separator is the first piece; the rest splits on its own |
| Text.SplitNoSep | config_parser.py:80 | a text without the separator is a single piece |
| Text.SplitJoin | config_parser.py:80 | splitting separator-free pieces joined by the separator gives back the pieces |
| Text.JoinCons | config_parser.py:80 | joining two or more pieces is the first piece, the separator, then the rest joined |
| Text.TakeWord | config_parser.py:88 | the leading word is a whitespace-free prefix ending at whitespace or at the end |
| Text.TakeWordOf | config_parser.py:88 | the leading word of a word followed by whitespace or nothing is that word |
| Text.WordsSpec | config_parser.py:88 | `split()` yields non-empty, whitespace-free tokens |
| Text.WordsConsSpec | config_parser.py:88 | a non-empty whitespace-free word in front of such tokens keeps them all non-empty and whitespace-free |
| Text.WordsAfterSpace | config_parser.py:88 | leading whitespace does not change the tokens |
| Text.WordsStep | config_parser.py:88 | a word followed by whitespace is the first token |
| Text.WordsCons | config_parser.py:88 | a whitespace-free word, a space and any text: the word is the first token and the text gives the rest |
| Text.WordsSingle | config_parser.py:88 | one whitespace-free word splits into itself alone |
| Text.WordsOfJoin | config_parser.py:88 | splitting space-joined whitespace-free words gives back the words |
| Text.WordsJoinCons | config_parser.py:88 | if the tail of a word list comes back from splitting its space-join, so does the whole list |
| Values.ArrayLiteralShape | config_parser.py:61 | an array literal is at least `array()` long, starts with `a` and ends with `)` |
| Values.Interior | config_parser.py:78 | removing the `array(` prefix and the `)` suffix shortens the text by seven |
| Values.Pieces | config_parser.py:78-80 | every comma-separated piece of the interior is shorter than the literal |
| Values.ParseValue | config_parser.py:56-71 | every failure of `parse_value` is an `InvalidValue` error |
| Values.ParseArray | config_parser.py:73-80 | every failure of `parse_array` is an `InvalidValue` error |
| Values.ParseItems | config_parser.py:80 | every failure of the element comprehension is an `InvalidValue` error |
| Values.ParsePiece | config_parser.py:80 | every failure on one stripped piece is an `InvalidValue` error |
| Values.ParseItemsCons | config_parser.py:80 | a successful comprehension is the value of the first stripped piece followed by the values of the rest |
| Values.ParseItemsLength | config_parser.py:80 | a successful comprehension has one value per piece |
| Values.ParseItemsAt | config_parser.py:80 | value `i` of a successful comprehension is the parse of stripped piece `i` |
| Values.ParseItemsAllOk | config_parser.py:80 | the comprehension succeeds when every stripped piece parses |
| Values.ParseItemsFirstError | config_parser.py:80 | a failing comprehension fails with the error of the first piece that does not parse |
| Values.ParseArrayElements | config_parser.py:73-80 | an array literal with `k` commas in its interior parses to a list of exactly `k + 1` values, value `i` being the parse of stripped piece `i` |
| Values.ParseArrayComplete | config_parser.py:61-62 | an array literal parses as soon as each of its stripped pieces does |
| Values.ParseArrayFirstError | config_parser.py:61-62 | a failing array literal fails with the error of its first unparsable piece |
| Values.EmptyArrayRejected | config_parser.py:78-80 | `array()` fails with `InvalidValue("")` |
| Values.DigitsParse | config_parser.py:64-65 | a digit string gives its decimal value, whatever names are declared |
| Values.NameParse | config_parser.py:67-71 | an identifier gives its current binding when declared and `InvalidValue` otherwise |
| Values.ParseValueWellFormed | config_parser.py:56-80 | against a well-formed table, every parsed value is well formed: non-negative integers, non-empty lists |
| Values.NatStrings | config_parser.py:129-130 | the element-wise `str` of a list of naturals; a helper that builds the input of the array round trip |
| Values.Ints | config_parser.py:65 | the integer values of a list of naturals, element by element; a helper that gives the expected output of the array round trip |
| Values.ArrayTextPieces | config_parser.py:61-80 | `array(n1,...,nk)` is an array literal whose pieces are the decimal forms |
| Values.ArrayRoundTrip | config_parser.py:61-80 | `array(n1,...,nk)` parses to the list of those numbers |
| Declaration.SkipSpaces | config_parser.py:44 | a `\s*` run: the first non-whitespace position at or after the start |
| Declaration.SkipIdent | config_parser.py:44 | the identifier-character run that `[_a-zA-Z0-9]*` consumes |
| Declaration.LineEnd | config_parser.py:44 | the first `\n` at or after a position, or the end; how far `.` can reach |
| Declaration.LastSemicolon | config_parser.py:44 | the last `;` in a range, or none |
| Declaration.FindValue | config_parser.py:44 | the backtracking order of `\s*(.+);`: a value start it reports is followed by a non-empty, newline-free value and `;` |
| Declaration.MatchPositions | config_parser.py:44 | every match reported satisfies the pattern `global\s+ident\s*=\s*(.+);` at the start of the line |
| Declaration.FindValueComplete | config_parser.py:44 | if any value start and `;` fit the pattern, the search finds one, at the latest start and, for it, the last `;` |
| Declaration.PrefixForced | config_parser.py:44 | the name and the `=` of any match are determined by the line |
| Declaration.MatchPositionsOf | config_parser.py:44 | when `global`, the whitespace run, the identifier, the `=` and the value search succeed at given positions, the match reports exactly those positions |
| Declaration.MatchComplete | config_parser.py:44-46 | whenever the pattern matches the line in some way, `re.match` succeeds with the same name and with the value the regex engine prefers |
| Declaration.MatchDeclarationGroups | config_parser.py:44-48 | the name group is an identifier and the value group is non-empty and free of newlines |
| Declaration.DeclarationLineMatches | config_parser.py:44-48 | `global name = value;` with a value free of `;` and newlines, and not starting with whitespace, yields exactly that name and value |
| Declaration.DeclarationLineScan | config_parser.py:44 | on a line `global name = value;` the whitespace scans, the identifier scan and the value search stop at the name, the `=`, the value and the final `;` |
| Declaration.DeclarationLineLayout | config_parser.py:44 | on a line `global name = value;` each fixed character sits at its place, the name and value are its slices, and no newline follows the `=` |
| Declaration.SkipIdentTo | config_parser.py:44 | the identifier run ends at the first character that cannot continue an identifier |
| Declaration.LineEndAtEnd | config_parser.py:44 | with no newline after a position, `.` reaches the end of the line |
| Expression.FloorDivSpec | config_parser.py:104-106 | `a // b` is the floor of the quotient, for either sign of `b` |
| Expression.FloorModSpec | config_parser.py:107-109 | `a % b` is the remainder of `a // b` and takes the sign of the divisor |
| Expression.Repeat | config_parser.py:101-103 | `n * list` has `n` times the length, and is empty for `n <= 0` |
| Expression.RepeatElements | config_parser.py:101-103 | each copy in `n * list` is the list |
| Expression.Greater | config_parser.py:110-112 | the comparison fails only with a type error |
| Expression.GreaterItems | config_parser.py:110-112 | lexicographic list comparison fails only as a type error |
| Expression.GreaterIrreflexive | config_parser.py:110-112 | no value is greater than itself |
| Expression.GreaterItemsIrreflexive | config_parser.py:110-112 | no list is lexicographically greater than itself |
| Expression.GreaterThanPrefix | config_parser.py:110-112 | a list is greater than each of its proper prefixes and not the other way round |
| Expression.ApplyOp | config_parser.py:95-112 | `max` returns one of its operands, and the larger one for two integers; a zero division happens exactly for `/` or `mod` of an integer by zero; the only failures are type errors and zero divisions |
| Expression.RunDepth | config_parser.py:88-117 | a successful run ends at exactly the depth the count predicts: operands add one, operators need two and leave one less |
| Expression.DepthFailure | config_parser.py:88-114 | a failing depth count means the run fails; an underflow or an unknown token means the depth count fails |
| Expression.EvaluateDepth | config_parser.py:115-120 | an expression evaluates only if its depth count ends at exactly one |
| Expression.OperandValues | config_parser.py:91-94 | one pushed value per operand token |
| Expression.RunOperands | config_parser.py:90-94 | operands alone push their values in order and never fail |
| Expression.EvaluateOperands | config_parser.py:90-120 | operands alone evaluate exactly when there is one of them, to its value, and otherwise fail with `InvalidExpression` |
| Expression.ClassifyOperator | config_parser.py:95-112 | an operator spelling that is not a declared name is that operator |
| Expression.ThreeWords | config_parser.py:88 | `x y z` splits into its three tokens |
| Expression.OperatorOnPair | config_parser.py:95-112 | an operator on a two-value stack pops `b` then `a` and leaves only `a OP b` |
| Expression.RunBinary | config_parser.py:90-112 | `x y OP` on digit strings leaves exactly `x OP y`, or fails as that operation does |
| Expression.BinaryExpression | config_parser.py:88-120 | `x y OP` evaluates to `x OP y`: the earlier operand is the left one |
| Expression.NameShadowsOperator | config_parser.py:93-112 | a declared `mod` or `max` pushes its value instead of applying the operator |
| Expression.RunConcat | config_parser.py:90-114 | running two token lists in turn is running their concatenation, and a failure in the first ends it |
| Expression.OperandThenOperator | config_parser.py:91-112 | `z OP` on a one-value stack uses the value below as the left operand |
| Expression.TwoOperators | config_parser.py:90-112 | `x y OP1 z OP2` leaves `(x OP1 y) OP2 z` |
| Expression.FloorRuns | config_parser.py:98-109 | the tokens of `3 10 - 2 /` leave -4 and those of `3 10 - 2 mod` leave 1 |
| Expression.FloorExpressions | config_parser.py:82-120 | the `^` expressions `3 10 - 2 /` and `3 10 - 2 mod` evaluate to -4 and 1 |
| Expression.FiveWords | config_parser.py:88 | five whitespace-free words joined by single spaces split back into those five tokens |
| Expression.FloorExpressionTexts | config_parser.py:82-88 | the space-joined words of the two examples are the texts `3 10 - 2 /` and `3 10 - 2 mod` |
| Expression.NegativeTokenUnknown | config_parser.py:91-114 | a token such as `-10` stops the run with `UnknownToken` |
| Expression.FloorExamples | config_parser.py:104-109 | -7 // 2 is -4, -7 % 2 is 1, 7 // -2 is -4 and 7 % -2 is -1 |
| Document.ValueChildren | config_parser.py:129-130 | one `value` child per list entry, in order |
| Document.Latest | config_parser.py:127 | the latest node recorded for a name carries that name |
| Document.LatestAppend | config_parser.py:127 | an appended node becomes the latest of its name and leaves the other names alone |
| Document.ConstantElementContent | config_parser.py:127-132 | a `constant` node named after the constant: an integer is its decimal text with no children; a list has no text and one `value` child per entry holding `str(entry)` |
| Document.IntTextReadsBack | config_parser.py:132 | an integer node's text reads back as the same integer |
| Document.ListTextsReadBack | config_parser.py:129-130 | each `value` child of a list of integers reads back as its entry |
| Parser.Declare | config_parser.py:44-50 | a declaration fails with `InvalidDeclaration` exactly when the regex fails, otherwise only with `InvalidValue`; a bound name is an identifier |
| Parser.DeclareWellFormed | config_parser.py:48-52 | a declaration against a well-formed table keeps it well formed |
| Parser.DeclareNumber | config_parser.py:44-52 | `global name = n;` binds `name` to `n` |
| Parser.DeclareArray | config_parser.py:44-80 | `global name = array(n1,...,nk);` binds `name` to the list of those numbers |
| Parser.ArrayTextFits | config_parser.py:44-61 | an array literal of numbers is non-empty, does not start with whitespace and holds no `;` and no newline, so it can stand as a declared value |
| Parser.NatStringsJoin | config_parser.py:80 | the comma-joined decimal forms hold only digits and commas |
| Parser.AgreeAfterDeclare | config_parser.py:52-54 | recording a binding in both stores keeps the latest node of every name in agreement with the table |
| Parser.ConfigParser.constructor | config_parser.py:6-10 | an empty table and an empty `config` root, which satisfy the invariant |
| Parser.ConfigParser.Root | config_parser.py:134-138 | the `config` root over the appended nodes, its latest node per name agreeing with the table |
| Parser.ConfigParser.AddToXml | config_parser.py:122-132 | exactly one `constant` node is appended, after the earlier ones, and nothing else changes |
| Parser.ConfigParser.ParseGlobal | config_parser.py:38-54 | all or nothing: on failure neither store changes; on success the name is bound to the parsed value, overwriting any earlier binding with no other name touched, and exactly one node is appended; the invariant holds |
| Parser.ConfigParser.EvaluateExpression | config_parser.py:82-120 | the loop's result is `Evaluate` of the expression over the table, and neither store changes |
| Parser.ConfigParser.ParseLine | config_parser.py:21-36 | blank and `#` lines change nothing; `global ` lines are declarations; `^` lines return the evaluation and change nothing; every other line fails with `UnknownSyntax` and changes nothing |

## Left out

- `parse_file` (config_parser.py:12-19): reading the file and stripping each line is I/O. `ParseLine` takes the stripped line.
- The command-line block (config_parser.py:140-156): `sys.argv`, `sys.exit` and the `SyntaxError` handler are I/O.
- The `print` at config_parser.py:119: `ParseLine` returns the printed value instead of printing it.
- `ET.tostring` in `to_xml` (config_parser.py:138): the XML text is produced by an outside library. `Root` gives the tree it serialises.
- The general regular-expression engine: only the one pattern at line 44 is matched, by hand.
- Unicode: `isdigit`, `\s`, `strip` and `split` are restricted to ASCII digits and to the ASCII whitespace set above. Python also accepts other Unicode digits and spaces.
- The limit on integer string conversion: Python raises `ValueError` when `int()` or `str()` meets a number of more than 4300 digits (config_parser.py:65, 92, 119, 132). The model converts numbers of any length.
- Recursion depth: Python raises `RecursionError` for lists nested deeper than its recursion limit, and the model handles any depth. This can happen in three places:
  - parsing a deeply nested `array(array(...))` literal, in the mutual recursion of config_parser.py:62 and 80;
  - comparing two such lists in `max` (config_parser.py:112);
  - `str(val)` in `add_to_xml` (config_parser.py:130), on a list nested one level per declaration through names (`global a1 = array(a0);` and so on). This one comes after the table write at line 52 and the node append at line 127.
- Expression.ApplyOp: Python raises `OverflowError` when `*` repeats a list by a count outside the 64-bit index range (config_parser.py:103), and `MemoryError` when the repeated list cannot be allocated. The model repeats by any count.
- Parser.ConfigParser.ParseGlobal: all-or-nothing holds only within the model's unbounded recursion. In Python a `RecursionError` from `str(val)` at line 130 leaves the binding and a partly built `constant` node in place, and the model does not capture that.
- Object identity: `constants[value]` at line 68 shares one list object between two names. Lists are never mutated, so values model them.
- `Parser.ConfigParser.AddToXml`: in the source the `constant` element is appended first and its children are added to it afterwards. The model builds the children first. The final tree is the same.
