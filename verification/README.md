# Visitor-pattern calculator, modelled in Dafny

The repository builds an arithmetic calculator three times: in C++, Python and Java.
Each version has the same parts:

- a **parser** that turns a string such as `3+5/2` into an expression tree;
- a **compute visitor** that evaluates the tree;
- a **pretty-print visitor** that writes the tree back out, fully parenthesised.

Every parser works the same way. It looks for the rightmost operator of the
lowest-precedence tier (`+ -`), then `* /`, then `^`. It splits the text there and
recurses on both halves. Text without an operator goes to the language's number
conversion:

- `std::stod` in C++;
- `int()` in Python;
- `Integer.parseInt` in Java.

The C++ parser also tracks parentheses. Its counter is declared once and carried from
one tier's loop to the next, without being reset. The C++ parser also strips one outer
pair of parentheses when no tier splits, and it reads only the first
whitespace-delimited token of its input.

The modules are:

- `Results`, `Text` and `Tiers`: shared vocabulary.
  - `Option` and `Result`.
  - Decimal digit text and its value, `NatText` / `IntText`.
  - Parenthesis balance (`Excess`, `SingleGroup`).
  - The three operator tiers.
- `CppStrings`: the C++ library calls the core relies on.
  - `iss >> t` (`FirstToken`).
  - `std::stod` on decimal text (`Stod`).
  - `std::to_string(double)` (`ToString`, via `Round6`).
  - `find` / `substr` (`IndexOf`, `TruncateAfterDot`).
- `CppParser`: the C++ `parse`.
  - The function `Parse`, which states what `parse` returns.
  - The methods `ScanLoop` (one tier loop) and `ParseStream` (the whole function with
    its three loops), proved equal to it.
  - Lemmas on split points, tier precedence, stripping, conversion and failure.
- `CppValidator`: `is_valid_expression`, as a method with its loop, proved equal to
  the predicate `IsValid`.
- `CppVisitors`:
  - The node classes as the datatype `Expr`.
  - The two visitors as classes with a `result` field that their methods update.
  - Each visitor is specified by a function (`Eval`, `Render`).
- `CppRoundTrip`: printing a tree and parsing the text back gives the same tree, with
  these differences:
  - `Parentheses` nodes are gone;
  - every constant is cut to two decimals;
  - a negative constant does not read back;
  - a variable, or an operator outside the five, does not read back.
- `CppExamples`: trees, values, failures and printed text for concrete inputs.
- `SplitParser`: the Python and Java splitter (no parentheses counter). It is one
  function with the literal conversion as a parameter.
- `PyParser`, `PyVisitors`, `PyExamples`, `PyProperties`:
  - Python's `parse` over `int()`;
  - the visitors with exact integers, with `//` as floor division and `**` as a power;
  - the test suite's expressions.
- `JavaParser`, `JavaPrinter`, `JavaProperties`:
  - Java's `Parser.Parse` over `Integer.parseInt` (32-bit range);
  - the first-phase `PrettyPrintVisitor`, with `Double.toString` for integer-valued
    constants.

Two behaviours of the C++ program worth knowing:

- The C++ printer wraps every constant in its own parentheses: "1+2" prints as
  `((1.00)+(2.00))`. See `CppExamples.RenderSum`.
- `is_valid_expression("(3+5)/2")` is false, because `std::stod` reads no number at
  '('. Yet `parse` accepts the same text and builds `(3+5)/2`. See
  `CppExamples.ParenthesisedInvalid` and `CppExamples.ParenthesisedQuotient`.

## Model

| member | source | states |
|---|---|---|
| `CppStrings.FirstTokenNoSpace` | C++/visitor_pattern.cc:88-90 | The token `iss >> t` reads holds no whitespace. |
| `CppStrings.FirstTokenOfNoSpace` | C++/visitor_pattern.cc:82-90 | Text without whitespace is read back whole, so each recursive call sees exactly the substring it is given. |
| `CppStrings.SkipWhitespaceSuffix` | C++/visitor_pattern.cc:90 | The stream skips a prefix made only of whitespace and stops at a non-space character. |
| `CppStrings.WordPrefix` | C++/visitor_pattern.cc:90 | A token is the longest whitespace-free prefix of what follows the skipped whitespace. |
| `CppStrings.StodUnsigned` | C++/visitor_pattern.cc:126 | `std::stod` on unsigned decimal text returns the value of its integer digits plus its fraction digits. |
| `CppStrings.StodNeedsDigit` | C++/visitor_pattern.cc:126 | The decimal reading of `std::stod` fails unless the text holds at least one digit. |
| `CppStrings.StodTwoDecimals` | C++/visitor_pattern.cc:126 | Digits, a point and two fraction digits read back as that decimal value. |
| `CppStrings.MantissaDigits` | C++/visitor_pattern.cc:126 | The mantissa `std::stod` reads is digits, taken from where the text places them. |
| `CppStrings.Round6` | C++/visitor_pattern.cc:199 | `to_string` keeps six decimals: the scaled value rounded to the nearest integer, halves up. |
| `CppStrings.IndexOf` | C++/visitor_pattern.cc:200 | `find` returns the first position holding the character, or `npos` when none does. |
| `CppStrings.TruncatedToString` | C++/visitor_pattern.cc:199-200 | The printed constant is the sign, the integer digits, '.', and the first two of the six decimals: truncated, not rounded. |
| `CppParser.ScanTier` | C++/visitor_pattern.cc:92-100 | A scan that stops does so at an operator of its tier, below the scan's start. |
| `CppParser.ScanTierSpec` | C++/visitor_pattern.cc:92-120 | A scan stops at the rightmost operator of the tier met with the counter at 0. Otherwise it runs out with the counter moved by the excess of ')' over '('. |
| `CppParser.ScanFindsRightmost` | C++/visitor_pattern.cc:92-100 | With a rightmost split point present, the scan returns exactly that index. |
| `CppParser.ScanFindsNothing` | C++/visitor_pattern.cc:92-100 | Without a split point, the scan hands on the counter plus the text's excess. |
| `CppParser.SplitPointDropLast` | C++/visitor_pattern.cc:93-96 | Passing the last character moves the counter by that character's weight; split points further left are unchanged. |
| `CppParser.NextAction` | C++/visitor_pattern.cc:88-126 | A split happens at an operator inside the token. Stripping happens only on a token of length at least 2 that starts with '(' and ends with ')'. |
| `CppParser.ActionAddSub` | C++/visitor_pattern.cc:92-99 | A depth-0 `+`/`-` split point makes the split at the rightmost one. |
| `CppParser.ActionMulDiv` | C++/visitor_pattern.cc:102-109 | Without one, the split is at the rightmost `*`/`/`. Its depth is counted from the counter the first loop left behind. |
| `CppParser.ActionPower` | C++/visitor_pattern.cc:112-119 | Without either, the split is at the rightmost `^`. The counter has been carried through two loops. |
| `CppParser.ActionCharacterised` | C++/visitor_pattern.cc:92-126 | The converse of the three above: each split is at a split point of its tier and below every higher tier's absence. Stripping or converting happens only when nothing splits. |
| `CppParser.ActionPrecedence` | C++/visitor_pattern.cc:92-120 | The operator a split is made at obeys the tier order. |
| `CppParser.ScanLoop` | C++/visitor_pattern.cc:92-100 | The index loop, proved by its invariants to return what the function `ScanTier` says. |
| `CppParser.ParseStream` | C++/visitor_pattern.cc:87-127 | The whole `parse` with its three loops sharing one counter, its recursive calls, its stripping and its conversion. It returns exactly the function `Parse`. |
| `CppParser.ParseFirstChunkOnly` | C++/visitor_pattern.cc:82-90 | Only the first whitespace-delimited token of the input is parsed. |
| `CppParser.ParseShaped` | C++/visitor_pattern.cc:87-127 | The parser builds only `Constant` and `Op` nodes, and only with the five operators. |
| `CppParser.ParseAddSubRoot` | C++/visitor_pattern.cc:92-99 | The rightmost depth-0 `+`/`-` is the root, over the exact prefix and suffix. |
| `CppParser.ParseMulDivRoot` | C++/visitor_pattern.cc:102-109 | Without a depth-0 `+`/`-`, the rightmost `*`/`/` at the carried depth is the root. |
| `CppParser.ParsePowerRoot` | C++/visitor_pattern.cc:112-119 | Without depth-0 `+ - * /`, the rightmost `^` at the carried depth is the root. |
| `CppParser.ParseStripsOuterPair` | C++/visitor_pattern.cc:122-124 | When nothing splits and the token is wrapped, exactly one outer pair is removed and no node is made. |
| `CppParser.ParseLiteral` | C++/visitor_pattern.cc:126 | Otherwise the token is converted by `std::stod`, and its failure is the parse's failure. |
| `CppParser.ParseRootPrecedence` | C++/visitor_pattern.cc:92-120 | A parsed root's operator obeys the tier order against the token it came from. |
| `CppParser.ParseNeedsDigit` | C++/visitor_pattern.cc:87-127 | With the decimal reading of `std::stod`, a successful parse needs a digit in the token. |
| `CppParser.EmptyOperandFails` | C++/visitor_pattern.cc:97-98 | A root `+`/`-` at either end of the token leaves an empty operand, and the parse fails. |
| `CppValidator.ChunksConvertAll` | C++/visitor_pattern.cc:136-144 | The token-by-token loop accepts exactly when every whitespace-delimited token converts with `std::stod`. |
| `CppValidator.IsValidExpression` | C++/visitor_pattern.cc:131-149 | The method, with its reading loop, returns false for "" and " ". Otherwise it returns whether every token converts. |
| `CppVisitors.OperatorsAreTiers` | C++/visitor_pattern.cc:165-171 | The compute table holds exactly the five operators the parser splits on. |
| `CppVisitors.EvalIgnoresVariables` | C++/visitor_pattern.cc:180-187 | A tree without variables has the same value whatever the variable map holds. |
| `CppVisitors.ParserShapedIsVariableFree` | C++/visitor_pattern.cc:30-77 | Parsed trees hold no `Variable` and no `Parentheses` nodes. |
| `CppVisitors.EvalUnwrap` | C++/visitor_pattern.cc:188-190 | `Parentheses` nodes do not change a value. |
| `CppVisitors.EvalExactOp` | C++/visitor_pattern.cc:165-171 | With exact arithmetic, `+ - *` evaluate as in the reals, left operand first. |
| `CppVisitors.RenderConstant` | C++/visitor_pattern.cc:198-202 | A constant prints as its `to_string` text cut after two decimals, in parentheses. |
| `CppVisitors.RenderUnwrap` | C++/visitor_pattern.cc:214-216 | `Parentheses` nodes are invisible in the output. |
| `CppVisitors.ConstantTextChars` | C++/visitor_pattern.cc:199-200 | A constant's text is digits and '.', with a leading '-' only for a negative value. |
| `CppVisitors.ConstantTextParenFree` | C++/visitor_pattern.cc:199-200 | A constant's text holds no parenthesis. |
| `CppVisitors.RenderSingleGroup` | C++/visitor_pattern.cc:198-216 | The output of a tree without variables whose operators are among `+ - * / ^` is one balanced parenthesised group. |
| `CppVisitors.ComputeVisitor.constructor` | C++/visitor_pattern.cc:154 | It keeps the variable map and the operator table, with `result_` at 0. |
| `CppVisitors.ComputeVisitor.Accept` | C++/visitor_pattern.cc:30-77 | Each node dispatches to its visit, and afterwards `result_` is the tree's value. |
| `CppVisitors.ComputeVisitor.VisitConstant` | C++/visitor_pattern.cc:155-157 | `result_` becomes the constant. |
| `CppVisitors.ComputeVisitor.VisitOp` | C++/visitor_pattern.cc:158-179 | It evaluates left then right and applies the table entry. An unknown operator leaves the right operand's value. |
| `CppVisitors.ComputeVisitor.VisitVariable` | C++/visitor_pattern.cc:180-187 | It gives the variable's value from the map, or 0 when the name is missing. |
| `CppVisitors.ComputeVisitor.VisitParentheses` | C++/visitor_pattern.cc:188-190 | It gives the value of the wrapped expression. |
| `CppVisitors.PrettyPrintVisitor.constructor` | C++/visitor_pattern.cc:217 | `result_` starts as the empty string. |
| `CppVisitors.PrettyPrintVisitor.Accept` | C++/visitor_pattern.cc:30-77 | Each node dispatches to its visit, and afterwards `result_` is the tree's text. |
| `CppVisitors.PrettyPrintVisitor.VisitConstant` | C++/visitor_pattern.cc:198-202 | `result_` becomes the constant's two-decimal text in parentheses. |
| `CppVisitors.PrettyPrintVisitor.VisitOp` | C++/visitor_pattern.cc:203-210 | `result_` becomes "(" + left text + operator + right text + ")". |
| `CppVisitors.PrettyPrintVisitor.VisitVariable` | C++/visitor_pattern.cc:211-213 | `result_` becomes the variable's name. |
| `CppVisitors.PrettyPrintVisitor.VisitParentheses` | C++/visitor_pattern.cc:214-216 | `result_` becomes the wrapped expression's text, with no extra parentheses. |
| `CppRoundTrip.Reparsed` | C++/visitor_pattern.cc:87-127 | The tree expected back from printed text holds only `Constant` and `Op` nodes. |
| `CppRoundTrip.GroupUnsplittable` | C++/visitor_pattern.cc:92-120 | A printed group has no depth-0 operator in any tier, even with the counter carried across tiers. |
| `CppRoundTrip.ParseGroup` | C++/visitor_pattern.cc:122-124 | A printed group is parsed as its inside. |
| `CppRoundTrip.ParseJoin` | C++/visitor_pattern.cc:92-120 | Two printed groups joined by an operator split at that operator. |
| `CppRoundTrip.ParseNumber` | C++/visitor_pattern.cc:126 | A number's text goes to `std::stod` whole. |
| `CppRoundTrip.ParseRenderedConstant` | C++/visitor_pattern.cc:198-202 | A printed non-negative constant parses back to its value cut to two decimals. |
| `CppRoundTrip.ParseRenderedOp` | C++/visitor_pattern.cc:203-210 | For a tree without variables, whose operators are among `+ - * / ^` and whose constants are non-negative, a printed operation parses back to the operation over its operands' parses. |
| `CppRoundTrip.RenderReparses` | C++/visitor_pattern.cc:196-216 | For a tree without variables, whose operators are among `+ - * / ^` and whose constants are non-negative, parsing the printer's output gives the tree back, without `Parentheses` nodes and with constants cut to two decimals. |
| `CppRoundTrip.ParseLeadingMinus` | C++/visitor_pattern.cc:97-98 | Text that starts with '-' and continues with a number is a subtraction with nothing on its left, and fails. |
| `CppRoundTrip.NegativeConstantDoesNotReparse` | C++/visitor_pattern.cc:198-202 | A printed negative constant cannot be parsed back. |
| `CppExamples.ParseDigit` | C++/visitor_pattern.cc:126 | A single digit converts to its value. |
| `CppExamples.SplitAddSub` | C++/visitor_pattern.cc:92-99 | Text made of digits and operators splits at its last `+` or `-`. |
| `CppExamples.SplitMulDiv` | C++/visitor_pattern.cc:102-109 | Without `+` and `-`, such text splits at its last `*` or `/`. |
| `CppExamples.SplitPower` | C++/visitor_pattern.cc:112-119 | Without `+ - * /`, such text splits at its last `^`. |
| `CppExamples.ParsePair` | C++/visitor_pattern.cc:87-127 | Any operator between two digits gives one `Op` over the two constants. |
| `CppExamples.AddSubChain` | C++/visitor_pattern.cc:92-99 | `+` and `-` chains associate to the left. |
| `CppExamples.PowerChain` | C++/visitor_pattern.cc:112-119 | `^` chains associate to the left as well. |
| `CppExamples.Precedence` | C++/visitor_pattern.cc:92-110 | `*`/`/` bind tighter than `+`/`-`, even when the `+`/`-` comes first. |
| `CppExamples.SubtractionChain` | C++/visitor_pattern.cc:92-99 | "8-3-2" is (8-3)-2. |
| `CppExamples.PowerChainExample` | C++/visitor_pattern.cc:112-119 | "2^3^2" is (2^3)^2. |
| `CppExamples.PrecedenceExample` | C++/visitor_pattern.cc:158-179 | "3+5/2" is 3+(5/2), which is 5.5 with exact arithmetic. |
| `CppExamples.MissingRightOperand` | C++/visitor_pattern.cc:98 | "3+" throws. |
| `CppExamples.MissingLeftOperand` | C++/visitor_pattern.cc:98 | "+3" throws. |
| `CppExamples.NoDigits` | C++/visitor_pattern.cc:126 | "abc" throws. |
| `CppExamples.BlankInputs` | C++/visitor_pattern.cc:132-134 | "" and " " are invalid, while "  " holds no token and is valid. |
| `CppExamples.InvalidWord` | C++/visitor_pattern.cc:137-147 | "abc" is invalid. |
| `CppExamples.ValidButUnparsable` | C++/visitor_pattern.cc:131-149 | "3+" passes the validator, yet `parse` throws on it. |
| `CppExamples.GroupQuotient` | C++/visitor_pattern.cc:102-124 | A parenthesised digit pair followed by `*` or `/` and a digit splits at the outer operator, and the group is parsed as its inside. |
| `CppExamples.ParenthesisedQuotient` | C++/visitor_pattern.cc:87-127 | "(3+5)/2" is (3+5)/2, which is 4 with exact arithmetic. |
| `CppExamples.ValidExpression` | C++/visitor_pattern.cc:137-145 | "3+5/2" passes the validator, because `std::stod` reads its leading "3". |
| `CppExamples.ParenthesisedInvalid` | C++/visitor_pattern.cc:137-147 | "(3+5)/2" fails the validator. |
| `CppExamples.BlankValid` | C++/visitor_pattern.cc:131-149 | Input made only of whitespace is valid exactly when it is neither "" nor " ". |
| `CppExamples.ConstantText` | C++/visitor_pattern.cc:198-202 | A digit's constant prints as that digit followed by ".00", in parentheses. |
| `CppExamples.RenderDigitOp` | C++/visitor_pattern.cc:203-210 | An operation over two digit constants prints each constant in its own parentheses, inside one more pair. |
| `CppExamples.RenderSum` | C++/visitor_pattern.cc:196-210 | "1+2" prints as "((1.00)+(2.00))". |
| `SplitParser.RightmostBelow` | visitor_pattern.py:133-135 | The loop returns the rightmost index of the tier below its start, or none when there is no such index. |
| `SplitParser.Rightmost` | visitor_pattern.py:133-143 | A loop finds nothing exactly when the text holds no operator of the tier. |
| `SplitParser.SplitIndex` | visitor_pattern.py:133-145 | The split is at an operator, and there is none exactly when the text is operator-free. |
| `SplitParser.RightmostIs` | visitor_pattern.py:133-135 | The loop returns at the rightmost operator of the tier. |
| `SplitParser.ParseLiteral` | visitor_pattern.py:145 | Operator-free text succeeds exactly when the conversion does, and a failure is reported on that text. |
| `SplitParser.ParseAddSubRoot` | visitor_pattern.py:133-135 | The rightmost `+`/`-` is the root. |
| `SplitParser.ParseMulDivRoot` | visitor_pattern.py:137-139 | Without `+`/`-`, the rightmost `*`/`/` is the root. |
| `SplitParser.ParsePowerRoot` | visitor_pattern.py:141-143 | Without `+ - * /`, the rightmost `^` is the root. |
| `SplitParser.ParseJoinAddSub` | visitor_pattern.py:133-135 | `p op q` with no `+`/`-` in `q` is the `Op` over the parses of `p` and `q`: left association. |
| `SplitParser.ParseJoinMulDiv` | visitor_pattern.py:137-139 | The same for `*` and `/` in text without `+` and `-`. |
| `SplitParser.ParseJoinPower` | visitor_pattern.py:141-143 | The same for `^` in text without lower tiers. |
| `SplitParser.ParseAddSubIn` | visitor_pattern.py:133-135 | The join for a slice of a text, split at one of its positions. |
| `SplitParser.ParseMulDivIn` | visitor_pattern.py:137-139 | The same for `*` and `/`. |
| `SplitParser.ParsePowerIn` | visitor_pattern.py:141-143 | The same for `^`. |
| `SplitParser.ParseRootPrecedence` | visitor_pattern.py:133-143 | The root's operator is at the split index, and it obeys the tier order. |
| `SplitParser.ParseConstants` | visitor_pattern.py:132-145 | Every constant comes from operator-free text, and every operator node holds one of the five operators. |
| `SplitParser.ParseNoAddSub` | visitor_pattern.py:133-143 | Text without `+` and `-` gives a tree without `+` and `-` nodes. |
| `SplitParser.ParseWithAgrees` | visitor_pattern.py:132-145 | Two conversions that agree where the first one succeeds give the same parse where the first succeeds. |
| `SplitParser.ParseBelowProduct` | visitor_pattern.py:137-143 | Below a `*`, `/` or `^` root there is no `+` or `-` node. |
| `PyParser.Trimmed` | visitor_pattern.py:145 | What `int()` strips is whitespace at both ends, and what it reads is the slice between. |
| `PyParser.UngroupedOfDigits` | visitor_pattern.py:145 | Plain digits read as themselves, since there are no underscores to drop. |
| `PyParser.PyIntOfText` | visitor_pattern.py:145 | `int(str(x)) == x`. |
| `PyParser.PyIntSignFree` | visitor_pattern.py:145 | Without a sign character, `int()` gives a non-negative value. |
| `PyParser.PyIntChars` | visitor_pattern.py:145 | `int()` accepts only whitespace, signs, digits and underscores. |
| `PyParser.ParseNonNegative` | visitor_pattern.py:132-145 | Every constant `parse` builds is a non-negative integer, and every operator is one of the five. |
| `PyParser.ParseEmptyFails` | visitor_pattern.py:145 | `parse("")` raises `ValueError`. |
| `PyVisitors.FloorDiv` | visitor_pattern.py:101 | `//` rounds towards negative infinity, for either sign of the divisor. |
| `PyVisitors.PowNonNegative` | visitor_pattern.py:97 | A power of a non-negative base is non-negative. |
| `PyVisitors.FloorDivNonNegative` | visitor_pattern.py:101 | `//` of non-negative operands is truncating division. |
| `PyVisitors.EvalNonNegative` | visitor_pattern.py:89-108 | A tree over non-negative constants without `+` and `-` evaluates to a non-negative value. |
| `PyVisitors.ApplyUnknown` | visitor_pattern.py:104-108 | An operator missing from the table leaves the right operand's value. |
| `PyVisitors.RenderSingleGroup` | visitor_pattern.py:114-128 | The printed text of a tree whose operators are among `+ - * / ^` is one balanced parenthesised group. |
| `PyVisitors.ComputeVisitor.constructor` | visitor_pattern.py:83-84 | `result_` starts at 0. |
| `PyVisitors.ComputeVisitor.Accept` | visitor_pattern.py:28-29 | Afterwards it raises exactly when evaluation fails, and otherwise `result_` is the value. |
| `PyVisitors.ComputeVisitor.VisitConstant` | visitor_pattern.py:86-87 | `result_` becomes the constant. |
| `PyVisitors.ComputeVisitor.VisitOp` | visitor_pattern.py:89-108 | It evaluates left then right and applies the table entry, raising what Python raises. |
| `PyVisitors.PrettyPrintVisitor.constructor` | visitor_pattern.py:111-112 | `result_` starts empty. |
| `PyVisitors.PrettyPrintVisitor.Accept` | visitor_pattern.py:61-62 | Afterwards `result_` is the tree's text. |
| `PyVisitors.PrettyPrintVisitor.VisitConstant` | visitor_pattern.py:114-115 | `result_` becomes `str(x)` in parentheses. |
| `PyVisitors.PrettyPrintVisitor.VisitOp` | visitor_pattern.py:117-128 | The joined list is "(" + left text + operator + right text + ")". |
| `PyExamples.SubtractionChain` | visitor_pattern.py:133-135 | "8-3-2" is (8-3)-2. |
| `PyExamples.MulDivChain` | test_visitor_pattern.py:27-30 | "8*3/4" evaluates to 6. |
| `PyExamples.MixedExpression` | test_visitor_pattern.py:32-35 | "11-8/4*3+2" evaluates to 7. |
| `PyExamples.Division` | test_visitor_pattern.py:18-20 | "9/3" evaluates to 3. |
| `PyExamples.DivisionByZero` | visitor_pattern.py:101 | "1/0" parses, and evaluating it raises `ZeroDivisionError`. |
| `PyExamples.PowerChain` | visitor_pattern.py:141-143 | "2^3^2" is (2^3)^2, which is 64. |
| `PyExamples.ParenthesesRejected` | visitor_pattern.py:145 | "(1+2)" raises `ValueError` on "(1". |
| `PyExamples.RenderSum` | visitor_pattern.py:114-128 | "3+4" prints as "((3)+(4))". |
| `PyProperties.ProductOperands` | visitor_pattern.py:101 | Below a `*`, `/` or `^` root both operands are non-negative, so `//` there is truncating division. |
| `PyProperties.ProductValueNonNegative` | visitor_pattern.py:89-105 | A parsed tree without `+` and `-` evaluates to a non-negative value. |
| `JavaParser.ParseInt` | java/VisitorPattern/src/com/nyu/edu/Parser.java:25 | `parseInt` returns a value within the 32-bit `int` range. |
| `JavaParser.ParseIntOfText` | java/VisitorPattern/src/com/nyu/edu/Parser.java:25 | Every `int`'s decimal text reads back as that `int`. |
| `JavaParser.ParseIntChars` | java/VisitorPattern/src/com/nyu/edu/Parser.java:25 | Only a leading sign and digits are accepted. |
| `JavaParser.ParseIntOutOfRange` | java/VisitorPattern/src/com/nyu/edu/Parser.java:25 | Digits beyond 2^31-1 throw. |
| `JavaParser.ParseIntSignFree` | java/VisitorPattern/src/com/nyu/edu/Parser.java:25 | Without a sign, the value is a non-negative `int`. |
| `JavaParser.ParseIntIsPyInt` | java/VisitorPattern/src/com/nyu/edu/Parser.java:25 | Where `parseInt` accepts operator-free text, Python's `int()` gives the same value. |
| `JavaParser.ParseConstantsInRange` | java/VisitorPattern/src/com/nyu/edu/Parser.java:5-26 | Parsed constants lie in 0 .. 2^31-1, and every operator is one of the five. |
| `JavaParser.ParseAgreesWithPython` | java/VisitorPattern/src/com/nyu/edu/Parser.java:5-26 | Wherever the Java parser succeeds, the Python parser builds the same tree. |
| `JavaParser.ParseOperatorFree` | java/VisitorPattern/src/com/nyu/edu/Parser.java:25 | Operator-free text parses exactly when it is a non-empty run of digits within range. |
| `JavaParser.SubtractionChain` | java/VisitorPattern/src/com/nyu/edu/Parser.java:7-11 | "8-3-2" is (8-3)-2. |
| `JavaParser.ParseTenDigits` | java/VisitorPattern/src/com/nyu/edu/Parser.java:25 | Ten digits led by 3 or more throw. |
| `JavaPrinter.StripZeros` | Phase0/java/VisitorPattern/src/com/nyu/edu/PrettyPrintVisitor.java:9 | It drops exactly the trailing zeros of a text. |
| `JavaPrinter.PlainText` | Phase0/java/VisitorPattern/src/com/nyu/edu/PrettyPrintVisitor.java:9 | Below 10^7 a constant prints as its digits, without leading zeros, followed by ".0". |
| `JavaPrinter.ScientificText` | Phase0/java/VisitorPattern/src/com/nyu/edu/PrettyPrintVisitor.java:9 | From 10^7 on it prints in normalised E-notation that denotes the value. |
| `JavaPrinter.SignificandValue` | Phase0/java/VisitorPattern/src/com/nyu/edu/PrettyPrintVisitor.java:9 | The significand drops only zeros. |
| `JavaPrinter.RenderSingleGroup` | Phase0/java/VisitorPattern/src/com/nyu/edu/PrettyPrintVisitor.java:8-24 | The output for a tree whose operators are among `+ - * / ^` is one balanced parenthesised group. |
| `JavaPrinter.PrettyPrintVisitor.Accept` | Phase0/java/VisitorPattern/src/com/nyu/edu/PrettyPrintVisitor.java:5-24 | Afterwards `output` is the tree's text. |
| `JavaPrinter.PrettyPrintVisitor.VisitConstant` | Phase0/java/VisitorPattern/src/com/nyu/edu/PrettyPrintVisitor.java:8-10 | `output` becomes the constant's `Double.toString` text in parentheses. |
| `JavaPrinter.PrettyPrintVisitor.VisitOp` | Phase0/java/VisitorPattern/src/com/nyu/edu/PrettyPrintVisitor.java:13-24 | The builder's text is "(" + left + operator + right + ")", written to `output`. |
| `JavaProperties.ParsedRenderSingleGroup` | Phase0/java/VisitorPattern/src/com/nyu/edu/PrettyPrintVisitor.java:13-24 | Printing a parsed tree gives one balanced group. |
| `JavaProperties.RenderSum` | Phase0/java/VisitorPattern/src/com/nyu/edu/PrettyPrintVisitor.java:8-24 | "3+4" prints as "((3.0)+(4.0))". |

## Left out

- IEEE double arithmetic. The C++ compute table (`std::pow`, `+ - * /` on doubles) is the parameter `arith` of `CppVisitors.Eval`. Only the exact case of `+ - * /` is assumed, in lemmas that ask for it. Double rounding, infinities and NaN are not modelled.
- `CppStrings.Stod`: models the decimal reading of `std::stod` only, and differs from the library elsewhere. It rejects "inf", "infinity" and "nan" (any case, optional sign), which the library accepts. It reads hexadecimal text such as "0x1A" as its leading "0" (the library gives 26). It drops an exponent, so "1e5" reads as 1 (the library gives 100000). `std::out_of_range` and binary rounding are not modelled, and values are exact reals.
- `CppStrings.StodNeedsDigit`: holds of the decimal reading only. The library converts "inf" and "nan", which hold no digit.
- `CppParser.ParseNeedsDigit`: holds of the decimal reading only. In the program, `parse("nan")` gives a `Constant` and `is_valid_expression("inf")` is true.
- `std::to_string` is modelled as six-decimal rounding of an exact real, halves up. Binary representation error is not modelled.
- The C++ loops use an `int` index and counter. Both are unbounded integers here. The counter is carried through all three loops, so during the `^` loop it can reach three times the token's length. The model agrees with the program only for tokens shorter than 2^31/3 characters. Longer tokens can overflow the counter in the program, which is undefined behaviour.
- The three C++ tier loops are one method, `CppParser.ScanLoop`, called three times with the counter carried across. `ParseStream` composes them.
- The "Invalid Operand" and "Variable ... not defined" messages are console output and are not modelled. Only the value `result_` keeps is modelled.
- Manual memory management (destructors, `delete`) and pointer aliasing between nodes are not modelled. Trees are values.
- `main`, the command-line drivers, `greet.cc`, `build.h`, and the files of Phase 1 and Phase 2 are not part of this model.
- The Java `ComputeVisitor`, the Java node classes other than the printer, and the Java `main` are not part of this model. The Phase 0 `Constant` class is not part of this model either: its constant is taken to be a `double` holding the integer `Parser.Parse` gives.
- `JavaPrinter.PrettyPrintVisitor` has no constructor. The Java `output` field starts as `null`, which is never read before it is written.
- `JavaPrinter.NatDoubleText` covers only integer-valued doubles, which are the only ones the parser produces. Integers beyond 2^53, where a `double` no longer holds every integer, print their exact digits here.
- Python's `is_valid_expression` (it calls `ast.parse`), `Expression.load` / `register_loader`, and the first `Op` class (shadowed by the second) are not part of this model.
- Python `**` with a negative exponent returns a float. The model reports it as the error `NonIntegerPower` instead of computing the float. `0 ** -1` raises `ZeroDivisionError`, as Python does.
- `int()` also accepts non-ASCII Unicode digits and whitespace; `Integer.parseInt` also accepts non-ASCII Unicode digits (through `Character.digit`). Only ASCII is modelled.
- `PyVisitors.ComputeVisitor.Accept`: after an exception, the value left in `result_` is not stated.
- The test suite's values for "3-5+6-2+9", "3+4", "16-8" and "5*3" are not stated as examples. Its values for "8*3/4", "11-8/4*3+2" and "9/3" are.
- Call-stack depth is not modelled. `Parse`, `Eval` and `Render` are total in every language here, and return a value for input of any depth. The programs do not:
  - Python's `parse` recurses once per operator of a left-associative chain. `ComputeVisitor` and `PrettyPrintVisitor` use two frames (`accept`, then `visit_op`) per tree level. With CPython's default limit of 1000 frames, a chain such as "1+1+…+1" of a few hundred operators raises `RecursionError`.
  - The C++ `parse` and visitors, and the Java `Parser.Parse` and `PrettyPrintVisitor`, recurse in the same way. Deep enough input overflows the native stack (a crash in C++, `StackOverflowError` in Java).
- `PyParser.PyInt`: accepts digit strings of any length. CPython 3.11 and later (and the 3.7-3.10 security releases) raise `ValueError` in `int()` for more than 4300 decimal digits. `PyParser.PyIntOfText` (`int(str(x)) == x`) therefore holds in those versions only for integers of at most 4300 digits, where `str()` itself does not raise either.
