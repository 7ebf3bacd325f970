# Walker symbol tools in Dafny

Walker is a set of small tools around ELF binaries and C++ symbol names.
This project models four of them and proves properties of the models:

- **The hand-written demangler** (`FunctionDemangler` in `Demangler/Program.cs`).
  - It reads an Itanium C++ ABI mangled name: `_Z`, then one name or nested name.
    - A source name is a length followed by that many characters.
    - A name may carry a template argument list.
  - It builds an `S_Name` / `S_Nested` / `S_Template` tree and renders it with `GetNameString`.
  - The specification is a family of functions (`Demangler.NameAt`, `Demangler.NestedAt`, …).
    - Each maps a text and a cursor to the value read and the cursor after it, or to the exception the source throws.
  - The class `Demangler.FunctionDemangler` holds the text, the cursor `index` and the result. Its methods are proved to follow those functions.
  - `DemanglerFacts` states what the reader accepts:
    - the base-eleven length accumulator;
    - a round trip against an encoder;
    - the loop that never ends;
    - input after the first component is ignored.
- **The Irony terminal `StringWithLengthLiteral`** (`Demangler/Program2.cs`).
  - It reads a decimal length and then that many characters.
  - It is modelled as a class over a source stream with two cursors.
- **The symbol tokenizer** in its two versions, `SymbolParser/ParserExample.cs` and `SymbolParser/ParserExample.cpp`.
  - It sanitizes a demangled name and scans it into NAME, SCOPE, BOUNDARY, TMP and bracket tokens, parsing every bracket argument again.
  - `Tokenizer` is one specification for both versions, parameterised by the dialect.
    - The versions differ in the NAME character set, in `Sanitize` and in `_Split`.
  - `SymbolParserCs.Parser` and `SymbolParserCpp.Parser` are the two parser classes, each with the cursor `current` and the list `tokens`. Their methods are proved to compute the specification.
  - `TokenSerialization` models the C++ `serialize`/`deserialize` pair and proves the round trip that the C++ `main` runs.
- **WalkerZero's ELF records** (`WalkerZero/Model/ElfHeader.cs`, `WalkerZero/Model/Symbol.cs`).
  - The header's `Kind` clamps the type to the named kinds.
  - The symbol constructor splits `st_info` into type and binding, as ELF32_ST_TYPE and ELF32_ST_BIND do in the System V ABI.

Exceptions become `Err` values of a `Result`. Both loops in the source that never end are modelled as explicit error values:

- `Demangler.Error.NoProgress` for `ReadNested` at a character that is not a digit, not 'I' and not 'E';
- `SymbolTokens.ParseError.Diverges` for the operator loop of the C++ `Sanitize`.

Each comes with a lemma about the stuck turn. The C++ loop's state repeats exactly. In `ReadNested` the cursor does not move, so the loop never reaches 'E'; the source keeps adding empty names until memory runs out.

The model follows the code as written, including its defects:

- **Length accumulator.** `ReadNumber` computes `num += num * 10 + digit`, so "10" is read as eleven. The model reads lengths in base eleven, and `DemanglerFacts` proves what follows from it.
- **`ReplaceInPlace`.** It overwrites as many characters as the replacement has, rather than as many as the pattern has.
- **C++ `_Split`.** It drops a last piece shorter than two characters, unless the text is empty.
- **C++ `Sanitize`.** It never ends once the input contains "operator".

## Model

| member | source | states |
|---|---|---|
| Text.FindFrom | SymbolParser/ParserExample.cs:30-31 | the result is the first position at or after `from` where the pattern occurs; `None` means it occurs nowhere from there on |
| Text.ReplaceAllNotFound | SymbolParser/ParserExample.cs:27 | .NET `Replace` leaves a text that does not contain the pattern unchanged |
| Text.ReplaceAllNotLonger | SymbolParser/ParserExample.cs:27 | a replacement no longer than its pattern never lengthens the text |
| Text.DecimalString | SymbolParser/ParserExample.cpp:257-260 | the index that `serialize` writes is a non-empty run of decimal digits |
| Text.DecimalRoundTrip | SymbolParser/ParserExample.cpp:294 | reading the decimal spelling back as `std::stoi` does gives the number |
| Text.HexDigit | SymbolParser/ParserExample.cpp:116 | the charset entry for a value below sixteen is an upper-case hexadecimal digit |
| Text.HexString | SymbolParser/ParserExample.cs:33 | the hexadecimal spelling is non-empty, upper-case hexadecimal only, and has at least two digits from sixteen up |
| DemangleNames.ComponentStrings | Demangler/Program.cs:163-169 | one rendered string per template argument, in argument order |
| DemangleNames.NameStrings | Demangler/Program.cs:180-183 | one rendered string per name of a nested name, in order |
| DemangleNames.NestedStringSnoc | Demangler/Program.cs:180-183 | a nested name of one name renders as that name; each further name adds "::" and its own rendering at the end, so the names are joined by "::" in order |
| DemangleNames.GetNameString | Demangler/Program.cs:155-173 | the builder's text is the source name, followed by `<`, the arguments joined by ", " and `>` exactly when there is a template |
| Demangler.PeekAt | Demangler/Program.cs:63 | `Peek` succeeds exactly when the cursor is inside the text, and then gives the character under it |
| Demangler.NumberFrom | Demangler/Program.cs:66-71 | the loop stops on a non-digit at or after the cursor, moves at least one place when the cursor is on a digit, and fails only with `IndexOutOfRange` at the end of the text |
| Demangler.NumberFromDigits | Demangler/Program.cs:66-71 | every character the loop moved over is a digit, and it fails exactly when every character from the cursor on is a digit |
| Demangler.SourceNameAt | Demangler/Program.cs:73-79 | the name ends within the text and after the digits |
| Demangler.SourceNameOverrun | Demangler/Program.cs:73-79 | once the length is read, the read fails exactly when the length overruns the text, with the `Substring` error at the name's start and length; otherwise the name ends right after that many characters |
| Demangler.NameAt | Demangler/Program.cs:81-92 | a name ends within the text and moves past any leading digit; the only failures are the ones the source throws |
| Demangler.NameOrNestedAt | Demangler/Program.cs:94-108 | a successful read always moves the cursor forward; a text that is not mangled is never reported here |
| Demangler.NestedAt | Demangler/Program.cs:115-127 | a nested name always moves the cursor forward and stays within the text |
| Demangler.NestedNamesFrom | Demangler/Program.cs:119-126 | the do-while loop ends past where it started and within the text |
| Demangler.TemplateAt | Demangler/Program.cs:129-141 | a template always moves the cursor forward and stays within the text |
| Demangler.TemplateArgsFrom | Demangler/Program.cs:133-140 | the do-while loop ends past where it started and within the text |
| Demangler.FunctionDemangler.constructor | Demangler/Program.cs:36-42 | checks "_Z" one character at a time and then parses; `demangled` is the result or the exception |
| Demangler.FunctionDemangler.Parse | Demangler/Program.cs:44-47 | `Demangled` is whatever `ReadNameOrNested` reads from the cursor |
| Demangler.FunctionDemangler.ReadChar | Demangler/Program.cs:49-52 | the character under the cursor, or the index error; the cursor moves by one in either case; only the cursor changes |
| Demangler.FunctionDemangler.CheckChar | Demangler/Program.cs:53-56 | true exactly when the character read is `c`; reading past the end is an index error; the cursor moves by one; only the cursor changes |
| Demangler.FunctionDemangler.ReadNumber | Demangler/Program.cs:66-71 | the value and the cursor the `NumberFrom` loop gives; only the cursor changes |
| Demangler.FunctionDemangler.ReadSourceName | Demangler/Program.cs:73-79 | the value and the cursor `SourceNameAt` gives; only the cursor changes |
| Demangler.FunctionDemangler.ReadName | Demangler/Program.cs:81-92 | the value and the cursor `NameAt` gives; only the cursor changes |
| Demangler.FunctionDemangler.ReadNameOrNested | Demangler/Program.cs:94-108 | the value and the cursor `NameOrNestedAt` gives; only the cursor changes |
| Demangler.FunctionDemangler.ReadSpecialName | Demangler/Program.cs:110-113 | always the not-implemented error |
| Demangler.FunctionDemangler.ReadNested | Demangler/Program.cs:115-127 | the value and the cursor `NestedAt` gives, including `NoProgress` where the do-while loop would repeat forever; only the cursor changes |
| Demangler.FunctionDemangler.ReadTemplate | Demangler/Program.cs:129-141 | the value and the cursor `TemplateAt` gives; only the cursor changes |
| DemanglerFacts.Base11Snoc | Demangler/Program.cs:69 | one more digit multiplies the accumulated value by eleven and adds the digit |
| DemanglerFacts.NumberReadsBase11 | Demangler/Program.cs:66-71 | a run of digits followed by a non-digit is consumed exactly and read in base eleven |
| DemanglerFacts.SingleDigitIsItsValue | Demangler/Program.cs:69 | a one-digit length is read as its value |
| DemanglerFacts.TenReadsAsEleven | Demangler/Program.cs:69 | "10" is read as eleven |
| DemanglerFacts.Base11String | Demangler/Program.cs:69 | every length the reader can produce has a non-empty spelling in decimal digits |
| DemanglerFacts.Base11RoundTrip | Demangler/Program.cs:69 | reading that spelling gives the length back |
| DemanglerFacts.ReadLengthsAreWritable | Demangler/Program.cs:69 | every run of digits reads as such a length, so 10, 21, 32, … are never read |
| DemanglerFacts.SmallLengthsAreDecimal | Demangler/Program.cs:69 | below ten, the reader's spelling is the standard decimal one |
| DemanglerFacts.EncodeComponentStart | Demangler/Program.cs:96-103 | an encoded name starts with a digit and an encoded nested name with 'N', which is how `ReadNameOrNested` dispatches |
| DemanglerFacts.ReadSourceNameBack | Demangler/Program.cs:73-79 | a length spelling followed by that many characters is read back as those characters |
| DemanglerFacts.ReadNameBack | Demangler/Program.cs:81-92 | the encoding of a well-formed name is read back as that name, ending at the end of the encoding |
| DemanglerFacts.ReadTemplateBack | Demangler/Program.cs:129-141 | the encoding of a template is read back as that template |
| DemanglerFacts.ReadArgsBack | Demangler/Program.cs:134-139 | the template loop reads the encoded arguments back in order and stops on their 'E' |
| DemanglerFacts.ReadComponentBack | Demangler/Program.cs:94-108 | the encoding of a well-formed component is read back as that component |
| DemanglerFacts.ReadNamesBack | Demangler/Program.cs:119-126 | the nested loop reads the encoded names back in order and stops on their 'E' |
| DemanglerFacts.DemangleEncoded | Demangler/Program.cs:36-47 | round trip: "_Z" followed by the encoding of a well-formed component demangles to that component, whatever follows |
| DemanglerFacts.NotMangledExactly | Demangler/Program.cs:39-40 | the "not mangled" exception is raised exactly when one of the first two characters is not "_Z"; any success starts with "_Z" |
| DemanglerFacts.Dispatch | Demangler/Program.cs:94-108 | a digit gives a plain name and 'N' a nested name; any other character is the not-implemented special name |
| DemanglerFacts.NestedLoopShape | Demangler/Program.cs:119-126 | the nested loop keeps the names it has, adds at least one, and ends just after an 'E' |
| DemanglerFacts.NestedShape | Demangler/Program.cs:115-127 | a nested name needs its 'N', holds one or more names and ends after an 'E' |
| DemanglerFacts.TemplateLoopShape | Demangler/Program.cs:133-140 | the template loop keeps the arguments it has, adds at least one, and ends just after an 'E' |
| DemanglerFacts.TemplateShape | Demangler/Program.cs:129-141 | a template needs its 'I', holds one or more arguments and ends after an 'E' |
| DemanglerFacts.NoProgressInNested | Demangler/Program.cs:120-124 | at a character that is not a digit, 'I' or 'E', `ReadName` reads an empty name without moving, so the loop can never end |
| DemanglerFacts.NoProgressExample | Demangler/Program.cs:115-124 | "_ZNX" is such a non-ending input |
| DemanglerFacts.EmptyNestedName | Demangler/Program.cs:115-127 | "_ZNE" demangles to a nested name holding one empty name |
| DemanglerFacts.BareNameAtEnd | Demangler/Program.cs:85 | a bare name that ends the input fails on the peek for 'I' |
| DemanglerFacts.DecimalTenFails | Demangler/Program.cs:69 | the standard spelling of a ten-letter name overruns the text |
| DemanglerFacts.TrailingExample | Demangler/Program.cs:44-47 | "_Z3fooi" demangles to `foo`; the 'i' is never read |
| DemanglerFacts.NumberExtends | Demangler/Program.cs:66-71 | a number read successfully is read the same in any text that extends it |
| DemanglerFacts.SourceNameExtends | Demangler/Program.cs:73-79 | the same for a source name |
| DemanglerFacts.NameExtends | Demangler/Program.cs:81-92 | the same for a name |
| DemanglerFacts.NameOrNestedExtends | Demangler/Program.cs:94-108 | the same for a component |
| DemanglerFacts.NestedExtends | Demangler/Program.cs:115-127 | the same for a nested name |
| DemanglerFacts.NestedNamesExtends | Demangler/Program.cs:119-126 | the same for the nested loop |
| DemanglerFacts.TemplateExtends | Demangler/Program.cs:129-141 | the same for a template |
| DemanglerFacts.TemplateArgsExtends | Demangler/Program.cs:133-140 | the same for the template loop |
| DemanglerFacts.TrailingInputIgnored | Demangler/Program.cs:44-47 | once a text demangles, appending anything leaves the result unchanged |
| LengthLiteral.RunEnd | Demangler/Program2.cs:79 | the preview cursor stops at the end of the digit run: everything before it is a digit, and the character at it is not |
| LengthLiteral.StringWithLengthLiteral.constructor | Demangler/Program2.cs:61 | the terminal keeps its name |
| LengthLiteral.StringWithLengthLiteral.GetLength | Demangler/Program2.cs:76-84 | the length read is the decimal value of the digits, refused when it is zero or overruns the text; the preview cursor stops after the digits even on refusal |
| LengthLiteral.StringWithLengthLiteral.TryMatch | Demangler/Program2.cs:63-74 | a refused length gives the error token without moving the position; otherwise the token starts after the digits and covers exactly `length` characters |
| LengthLiteral.RunEndOverDigits | Demangler/Program2.cs:79 | the digit run ends exactly where a run of digits followed by a non-digit ends |
| LengthLiteral.LengthRoundTrip | Demangler/Program2.cs:63-84 | the decimal spelling of a positive length, followed by that many characters that do not start with a digit, is read back as that length and those characters |
| LengthLiteral.NoDigitsRefused | Demangler/Program2.cs:81-82 | without a leading digit the length is refused |
| LengthLiteral.ZeroLengthRefused | Demangler/Program2.cs:81-82 | an all-zero length is refused even when characters follow |
| LengthLiteral.LeadingZeroIgnored | Demangler/Program2.cs:80 | leading zeros do not change the length |
| LengthLiteral.TenIsTen | Demangler/Program2.cs:80 | unlike the hand-written demangler, "10" is read as ten |
| NetSanitize.HexX2 | SymbolParser/ParserExample.cs:33 | `ToString("X2")` gives at least two upper-case hexadecimal digits, and exactly the high and low digit below 256 |
| NetSanitize.OpHex | SymbolParser/ParserExample.cs:33 | the joined character codes are upper-case hexadecimal, at least two digits per character |
| NetSanitize.ReplacementsShrink | SymbolParser/ParserExample.cs:27 | the three fixed replacements neither lengthen the text nor add an "operator" |
| NetSanitize.HexReplacementBenign | SymbolParser/ParserExample.cs:33 | "op#" plus hexadecimal digits can neither hold nor complete an "operator" |
| NetSanitize.OperatorRewrite | SymbolParser/ParserExample.cs:29-33 | in one turn of the loop the operator text lies between "operator" and the next "(", and the replacement leaves fewer "operator"s than before |
| NetSanitize.OperatorLoop | SymbolParser/ParserExample.cs:28-34 | the loop ends; its result holds no "operator", and its only failure is a missing "(" |
| NetSanitize.Sanitize | SymbolParser/ParserExample.cs:25-36 | the result holds no "operator"; a text without one only goes through the fixed replacements and does not grow; the only failure is a missing "(" |
| NetSanitize.StopText | SymbolParser/ParserExample.cs:28-34 | the text the loop stops on holds no more "operator"s than where it started, and either holds none or has no "(" after its first one |
| NetSanitize.OperatorLoopStops | SymbolParser/ParserExample.cs:28-34 | the loop succeeds exactly when the text it stops on holds no "operator", giving that text; it fails exactly at the index of that text's first "operator", which has no "(" after it |
| NetSanitize.SanitizeFails | SymbolParser/ParserExample.cs:25-36 | `Sanitize` throws exactly when the loop stops on a text that still holds an "operator", at the index of the first one, with no "(" after it |
| NetSanitize.FirstOperatorUnclosed | SymbolParser/ParserExample.cs:29-32 | when the first "operator" left by the fixed replacements has no "(" after it, `Sanitize` throws at that index |
| NetSanitize.LaterOperatorRewrittenEarly | SymbolParser/ParserExample.cs:29-33 | "operator+(operator+" succeeds although its second "operator" has no "(" after it: the first turn's `Replace` rewrites both |
| NetSanitize.NoOperatorNoLoop | SymbolParser/ParserExample.cs:28 | without an "operator" the loop body never runs |
| NetSanitize.OperatorWithoutParenthesis | SymbolParser/ParserExample.cs:31-32 | "operator+" fails: `Substring` is given a negative length |
| OperatorCount.OccPositive | SymbolParser/ParserExample.cs:28 | a text that contains "operator" has a positive count of occurrences |
| OperatorCount.OccZeroNotContains | SymbolParser/ParserExample.cs:28 | a zero count means `Contains("operator")` is false |
| OperatorCount.NotContainsOccZero | SymbolParser/ParserExample.cs:28 | `Contains("operator")` false means the count is zero |
| OperatorCount.OccSlice | SymbolParser/ParserExample.cs:141 | a substring holds no more occurrences than the text it is cut from |
| OperatorCount.OccReplaceAll | SymbolParser/ParserExample.cs:27 | replacing with a text that cannot form "operator" never adds occurrences |
| OperatorCount.OccReplaceAllStrict | SymbolParser/ParserExample.cs:33 | replacing a pattern that starts with "operator" and occurs in the text removes at least one occurrence |
| CppStrings.Overwrite | SymbolParser/ParserExample.cpp:111 | `replace(i, n, w)` keeps the length unless `w` runs past the end |
| CppStrings.OverwriteSplices | SymbolParser/ParserExample.cpp:111 | the `|w|` characters at `i`, or all that remain, give way to `w`; the rest is kept |
| CppStrings.ReplaceInPlaceFound | SymbolParser/ParserExample.cpp:108-114 | with no match from the search position the text is left alone; otherwise the first match is overwritten and the search resumes after the new text |
| CppStrings.ReplaceInPlaceKeepsLength | SymbolParser/ParserExample.cpp:108-114 | a replacement no longer than the pattern keeps the length |
| CppStrings.ReplaceInPlacePrefixIsNoOp | SymbolParser/ParserExample.cpp:108-114 | a replacement that is a prefix of its pattern changes nothing |
| CppStrings.CommaSpaceIsNoOp | SymbolParser/ParserExample.cpp:130 | the ", " to "," rewrite changes nothing |
| CppStrings.OverwriteLeavesTail | SymbolParser/ParserExample.cpp:131 | "operator()" becomes "op#2829r()": three characters stay behind |
| CppStrings.ReplaceInPlaceAgainstReplace | SymbolParser/ParserExample.cpp:129 | "> > >" becomes ">>>>>" where .NET `Replace` gives ">> >" |
| CppStrings.Hex | SymbolParser/ParserExample.cpp:115-126 | two upper-case hexadecimal digits per byte of the text |
| CppStrings.HexDigitsAt | SymbolParser/ParserExample.cpp:120-124 | byte k becomes the digits at 2k and 2k+1, high nibble first |
| CppStrings.HexRoundTrip | SymbolParser/ParserExample.cpp:115-126 | reading the digit pairs back gives every byte of the input |
| CppStrings.Sanitize | SymbolParser/ParserExample.cpp:127-138 | it succeeds exactly when the input holds no "operator", and then it is the three rewrites and keeps the length; otherwise it diverges at the first "operator" |
| CppStrings.RewritesKeepLength | SymbolParser/ParserExample.cpp:128-131 | the three fixed rewrites keep the length |
| CppStrings.OperatorLoopStuck | SymbolParser/ParserExample.cpp:132-136 | the loop's search from the found position finds that same position again, with `substr` in range, so the loop never ends |
| SymbolTokens.Cut | SymbolParser/ParserExample.cs:119-142 | a non-opener is refused; a cut is the text strictly between the opener and the first closer where the nesting returns to zero; an unclosed nesting is refused |
| SymbolTokens.CutFromDepth | SymbolParser/ParserExample.cs:127-138 | the loop with count equal to the nesting stops at the first point where the nesting reaches zero, or runs off the end when there is none |
| SymbolTokens.CutInnerBalanced | SymbolParser/ParserExample.cs:141 | what `_Cut` returns is balanced |
| SymbolTokens.CutIgnoresBracketKind | SymbolParser/ParserExample.cs:123-124 | any closer matches any opener: `<a)` is cut to `a` |
| SymbolTokens.SplitFrom | SymbolParser/ParserExample.cs:151-162 | every piece the loop cuts lies within the text |
| SymbolTokens.SplitLoop | SymbolParser/ParserExample.cs:151-162 | the same over the whole text |
| SymbolTokens.SplitCs | SymbolParser/ParserExample.cs:144-167 | every piece is no longer than the text and holds no more "operator"s |
| SymbolTokens.SplitCpp | SymbolParser/ParserExample.cpp:231-252 | the same for the C++ `_Split` |
| SymbolTokens.SplitStep | SymbolParser/ParserExample.cs:151-162 | one turn of the loop keeps the invariant: the nesting so far, one piece per top-level comma, and pieces joined by "," rebuilding the text read |
| SymbolTokens.SplitStepComma | SymbolParser/ParserExample.cs:157-161 | a comma outside brackets closes a piece and keeps the invariant |
| SymbolTokens.SplitStepOther | SymbolParser/ParserExample.cs:153-156 | any other character keeps the invariant |
| SymbolTokens.SplitFromFacts | SymbolParser/ParserExample.cs:151-162 | at the end of the loop the invariant describes the whole text |
| SymbolTokens.SplitCsPieces | SymbolParser/ParserExample.cs:144-167 | refused exactly when the nesting is still open; otherwise one piece more than the top-level commas, and joining with "," rebuilds the text |
| SymbolTokens.SplitCppDropsShortTail | SymbolParser/ParserExample.cpp:247-251 | the C++ split fails exactly when the C# one does, and otherwise keeps the last piece only when the text is empty or the piece has two or more characters |
| SymbolTokens.SplitCppDropsOneCharacter | SymbolParser/ParserExample.cpp:249-250 | "a,b" splits to ["a"] in C++ and ["a", "b"] in C# |
| SymbolTokens.SplitCppShortTexts | SymbolParser/ParserExample.cpp:249-250 | "x" splits to nothing and "" to one empty piece |
| Tokenizer.SanitizeBounded | SymbolParser/ParserExample.cs:40 | a sanitized text bounds the recursion on its pieces |
| Tokenizer.PiecesSmaller | SymbolParser/ParserExample.cs:62 | every bracket argument is smaller than the text it came from, so the recursive `Parse` terminates |
| Tokenizer.SplitOfCut | SymbolParser/ParserExample.cs:62 | splitting what `_Cut` returns never fails |
| Tokenizer.ScopeAtOccurs | SymbolParser/ParserExample.cs:105-117 | the "::" check is exactly an occurrence of "::" at the cursor |
| Tokenizer.Parse | SymbolParser/ParserExample.cs:38-43 | a parse fails only on an unclosed bracket, or on an "operator" (no "(" after it in C#, a loop that never ends in C++) |
| Tokenizer.ParsePieces | SymbolParser/ParserExample.cs:62 | one argument per piece, and the same failures |
| Tokenizer.Scan | SymbolParser/ParserExample.cs:45-103 | the scan fails only in those ways |
| Tokenizer.ScanNested | SymbolParser/ParserExample.cs:52-74 | the opener branch fails only in those ways |
| Tokenizer.ParseNamesOk | SymbolParser/ParserExample.cs:48 | every NAME a parse makes, at any depth, is non-empty, holds only NAME characters and holds no "::" |
| Tokenizer.TmpNamesOk | SymbolParser/ParserExample.cs:70-72 | the '{' case of that property: a TMP holds no NAME |
| Tokenizer.GroupNamesOk | SymbolParser/ParserExample.cs:61-69 | the bracket case of that property, through the parsed arguments |
| Tokenizer.ScanGroup | SymbolParser/ParserExample.cs:61-69 | a successful scan at '<', '(' or '[' parses the pieces and goes on after the closer with their group |
| Tokenizer.ScanBuffers | SymbolParser/ParserExample.cs:94-97 | over a run of NAME characters the loop only buffers |
| Tokenizer.ScanArguments | SymbolParser/ParserExample.cs:61-69 | the first argument that fails fails the scan; otherwise their group is the next token |
| Tokenizer.ParsePiecesPrefix | SymbolParser/ParserExample.cs:62 | parsing one piece more parses the earlier pieces first |
| Tokenizer.ParsePiecesStops | SymbolParser/ParserExample.cs:62 | after a failing piece, no later piece is looked at |
| Tokenizer.SanitizeKeepsPlainText | SymbolParser/ParserExample.cs:25-36 | neither sanitizer changes a text without spaces, '(' or "operator" |
| Tokenizer.ParseName | SymbolParser/ParserExample.cs:45-103 | a good NAME without "operator" parses to itself alone |
| Tokenizer.ScanNameAt | SymbolParser/ParserExample.cs:94-97 | a NAME is buffered whole |
| Tokenizer.ScanNameScope | SymbolParser/ParserExample.cs:75-84 | a NAME followed by "::" gives NAME, SCOPE |
| Tokenizer.ScanNameBoundary | SymbolParser/ParserExample.cs:85-93 | a NAME followed by another character gives NAME, BOUNDARY |
| Tokenizer.ScanLastName | SymbolParser/ParserExample.cs:99-102 | a NAME at the end of the text is the last token |
| Tokenizer.ParsePlain | SymbolParser/ParserExample.cs:38-43 | a text without spaces, '(' or "operator" is scanned unchanged |
| Tokenizer.ScopeBetweenNames | SymbolParser/ParserExample.cs:75-84 | "::" is checked before ':' is buffered: `a::b` gives NAME, SCOPE, NAME in both dialects |
| Tokenizer.CsNameRunIsCpp | SymbolParser/ParserExample.cpp:141 | every C# NAME character is a C++ one |
| Tokenizer.DotJoinsCppNames | SymbolParser/ParserExample.cpp:141 | '.' is a C++ NAME character: `a.b` is one NAME |
| Tokenizer.DotSeparatesCsNames | SymbolParser/ParserExample.cs:48 | '.' is not a C# NAME character: `a.b` is NAME, BOUNDARY, NAME |
| SymbolParserCs.Parser.constructor | SymbolParser/ParserExample.cs:23 | a parser over the text with the cursor at zero and no tokens |
| SymbolParserCs.Parser.Sanitize | SymbolParser/ParserExample.cs:25-36 | the result of the replacements and the loop is `NetSanitize.Sanitize` |
| SymbolParserCs.Parser.Parse | SymbolParser/ParserExample.cs:38-43 | the tokens are `Tokenizer.Parse` for C# |
| SymbolParserCs.Parser.ParseArguments | SymbolParser/ParserExample.cs:62 | the parsed arguments are `ParsePieces` |
| SymbolParserCs.Parser.ParseLoop | SymbolParser/ParserExample.cs:45-103 | `_Parse` computes the scan from the start; on success the token list is its result |
| SymbolParserCs.Parser.ParseSimple | SymbolParser/ParserExample.cs:75-97 | the SCOPE, BOUNDARY and buffering branches keep the scan's outcome |
| SymbolParserCs.Parser.ParseNesting | SymbolParser/ParserExample.cs:52-74 | the opener branch either fails as the scan does or leaves the cursor on the closer with the scan's outcome kept |
| SymbolParserCs.Parser.CheckToken | SymbolParser/ParserExample.cs:105-117 | true exactly when `str` occurs at the cursor within the text |
| SymbolParserCs.Parser.Cut | SymbolParser/ParserExample.cs:119-142 | the contents and closer `SymbolTokens.Cut` gives, with the cursor left on the closer |
| SymbolParserCs.Parser.Split | SymbolParser/ParserExample.cs:144-167 | the pieces `SplitCs` gives |
| SymbolParserCpp.Parser.constructor | SymbolParser/ParserExample.cpp:102 | a parser over the text with the cursor at zero and no tokens |
| SymbolParserCpp.Parser.ReplaceInPlace | SymbolParser/ParserExample.cpp:108-114 | the find-and-overwrite loop computes `ReplaceInPlaceFrom` |
| SymbolParserCpp.Parser.ToHex | SymbolParser/ParserExample.cpp:115-126 | the digits are `Hex` of the input |
| SymbolParserCpp.Parser.Sanitize | SymbolParser/ParserExample.cpp:127-138 | the result is `CppStrings.Sanitize`: the rewrites, or `Diverges` at the first "operator" |
| SymbolParserCpp.Parser.Parse | SymbolParser/ParserExample.cpp:95-99 | the tokens are `Tokenizer.Parse` for C++ |
| SymbolParserCpp.Parser.ParseArguments | SymbolParser/ParserExample.cpp:151-154 | the parsed arguments are `ParsePieces` |
| SymbolParserCpp.Parser.ParseLoop | SymbolParser/ParserExample.cpp:140-197 | `_Parse` computes the scan from the start; on success the token list is its result |
| SymbolParserCpp.Parser.ParseSimple | SymbolParser/ParserExample.cpp:175-192 | the SCOPE, BOUNDARY and buffering branches keep the scan's outcome |
| SymbolParserCpp.Parser.ParseNesting | SymbolParser/ParserExample.cpp:145-174 | the opener branch either fails as the scan does or leaves the cursor on the closer with the scan's outcome kept |
| SymbolParserCpp.Parser.CheckToken | SymbolParser/ParserExample.cpp:199-208 | true exactly when `str` occurs at the cursor within the text |
| SymbolParserCpp.Parser.Cut | SymbolParser/ParserExample.cpp:210-229 | the contents and closer `SymbolTokens.Cut` gives, with the cursor left on the closer |
| SymbolParserCpp.Parser.Split | SymbolParser/ParserExample.cpp:231-252 | the pieces `SplitCpp` gives |
| TokenSerialization.Serialize | SymbolParser/ParserExample.cpp:255-282 | the stream receives one entry per token, in index order |
| TokenSerialization.Step | SymbolParser/ParserExample.cpp:289-301 | the digit buffer holds only digits after every character |
| TokenSerialization.Run | SymbolParser/ParserExample.cpp:288-302 | the same over the whole text |
| TokenSerialization.Deserialize | SymbolParser/ParserExample.cpp:284-304 | the loop with its `read` flag and digit buffer computes `Deserialized` |
| TokenSerialization.RunIdle | SymbolParser/ParserExample.cpp:299-301 | outside a reading, text without '@' changes nothing |
| TokenSerialization.RunDigits | SymbolParser/ParserExample.cpp:290-291 | while reading, digits only collect in the buffer |
| TokenSerialization.RunAt | SymbolParser/ParserExample.cpp:299-301 | '@' starts a reading |
| TokenSerialization.RunClose | SymbolParser/ParserExample.cpp:293-296 | a non-digit ends a reading by looking up the token at the index read |
| TokenSerialization.RunHead | SymbolParser/ParserExample.cpp:294 | the head "@index>" of an entry reads back the token at that index |
| TokenSerialization.RunEntry | SymbolParser/ParserExample.cpp:257-279 | one whole entry reads back its token and ends the reading |
| TokenSerialization.RunSerializedPrefix | SymbolParser/ParserExample.cpp:257-280 | the entries of the first n tokens read back as those n tokens |
| TokenSerialization.RoundTrip | SymbolParser/ParserExample.cpp:313 | deserializing what `serialize` wrote gives the tokens back in order, when no NAME holds '@' and every index fits an `int` |
| TokenSerialization.ParsedNamesWithoutAt | SymbolParser/ParserExample.cpp:141 | no NAME a parse makes holds '@' |
| TokenSerialization.ParsedRoundTrip | SymbolParser/ParserExample.cpp:311-313 | the round trip `main` runs on each parsed line gives back its tokens |
| TokenSerialization.TrailingDigitsDropped | SymbolParser/ParserExample.cpp:288-303 | digits still being read at the end are never looked up |
| TokenSerialization.AtInNameBreaksRoundTrip | SymbolParser/ParserExample.cpp:260 | a NAME holding '@' followed by a non-digit makes `std::stoi("")` throw |
| Elf.Ordinal | WalkerZero/Model/ElfHeader.cs:12-20 | each kind's enum value is below six |
| Elf.FromOrdinal | WalkerZero/Model/ElfHeader.cs:23 | the cast to the enum gives the kind with that value |
| Elf.OrdinalRoundTrip | WalkerZero/Model/ElfHeader.cs:12-20 | casting to the value and back is the identity on every kind |
| Elf.ElfHeader.Kind | WalkerZero/Model/ElfHeader.cs:23 | a type below PROC's value is cast to the kind it names, and every type of five or more is PROC |
| Elf.KindClamps | WalkerZero/Model/ElfHeader.cs:23 | the kind's value is the type clamped at five, never more than the type |
| Elf.NewSymbol | WalkerZero/Model/Symbol.cs:45-54 | type and binding are below sixteen and together make up `info` (binding * 16 + type); visibility is `other`; the other fields are stored as given |
| Elf.SymbolInfoSplit | WalkerZero/Model/Symbol.cs:50-51 | the type is `info` modulo sixteen and the binding `info` divided by sixteen |
| Elf.SymbolInfoInjective | WalkerZero/Model/Symbol.cs:50-51 | two `info` bytes that decode to the same symbol are equal |

## Left out

- Console I/O:
  - the REPL loops of `Demangler/Program.cs` (`Main`) and of the C++ `main`;
  - the `Main` methods of `Demangler/Program2.cs` and `ParserExample.cs`.
  - They only read lines and print results. The C++ `main`'s parse-and-round-trip is stated by `TokenSerialization.ParsedRoundTrip`.
- The Irony grammar `ManglingGrammar` and Irony itself. Irony's source stream is reduced to its text and two cursors. Creating the parser's tokens is reduced to a token value.
- `IsTermination` and `PeekNext` in `Demangler/Program.cs`. Nothing calls them.
- WalkerZero's `Program.cs`, `Extensions.cs` and `Section.cs`. The symbol's section is a type parameter.
- Memory management and virtual dispatch in the C++ tokenizer:
  - `delete` in the destructors and in `main`;
  - `GetType()` is the datatype's constructor.
- Demangler.FunctionDemangler.ReadNumber: `int` overflow of the accumulator is not modelled; numbers are unbounded.
- LengthLiteral.StringWithLengthLiteral.GetLength: `int` overflow of the accumulator is not modelled.
- TokenSerialization.Serialize: an index past `INT_MAX` is written as unbounded decimal rather than wrapped.
- Unicode: `char.IsDigit` accepting non-ASCII digits is not modelled; only '0'-'9' are digits.
- .NET `IndexOf(string)` is culture-sensitive; the model compares ordinally, which agrees on ASCII text.
- A .NET `char` is modelled as a Dafny `char`; surrogate pairs are not.
- C++ text is modelled as one Dafny `char` per byte of the `std::string`. Only text whose characters are all below 256 is faithful.
  - The C++ tokenizer sees a UTF-8 character as one non-NAME byte per byte of its encoding. So it gives one BOUNDARY per byte where the model gives one per character, and `ToHex` writes two digits per byte.
- CppStrings.Byte: a `char` of 256 or more is reduced modulo 256, so CppStrings.HexRoundTrip gives back the bytes and not such characters.
- CppStrings.ReplaceInPlaceFrom and SymbolParserCpp.Parser.ReplaceInPlace require a non-empty pattern and replacement. Every call in the source passes non-empty ones; with an empty pattern, or an empty replacement and a match, the source loop would not end.
- `deserialize` indexes past the end of the token list without a check, which is undefined behaviour in C++. It is modelled as the `NoSuchToken` error.
- The enum casts in `Symbol.cs` keep values that have no name. Type, binding and visibility are therefore kept as numbers.
- The C++ `Sanitize` never returns once its input holds "operator".
  - It is modelled as `Diverges`.
  - `SymbolParserCpp.Parser.Sanitize` runs one turn of the loop and stops, justified by `CppStrings.OperatorLoopStuck`.
- `ReadNested` makes no progress when a name is read without moving the cursor and no 'E' follows. The cursor does not move, so the loop never reaches 'E'; the source keeps adding empty names until memory runs out. This is modelled as `NoProgress`.
