# The .api front end of goctl, and a few helpers: a model and its proofs

The `.api` language describes HTTP services. Every generator of the repository starts from the hand-written front end
modelled here: a scanner that turns runes into tokens, a parser with one token of look-ahead that keeps comments with
the tokens they belong to, the printer of data types, the walk over imported files, the checks on the merged program
and the conversion of its types and services. Beside it stand the sorted map with the environment file it is kept in,
the file naming styles and the protobuf `CamelCase`.

What changes state in the source changes state here: `Scanner`, `Parser`, `ImportStack`, `Api`, `Analyzer`,
`FilterBuilder` and `SortedMap` are classes whose methods follow the source's branch by branch and loop by loop. Each
is proved against functions on values, and what the program promises is proved about those functions, for all inputs.

| file | what it holds |
|---|---|
| `Tokens`, `Lexis`, `Scanner` | token kinds and positions; what one call reads, as functions; the scanner |
| `Grammar`, `Source`, `Layout`, `Positions`, `Faults` | the lexical grammar and that the scanner reads exactly it; whole files; laid-out text read back; the lines and columns reported; what is an error |
| `DataTypes`, `ParseSpec`, `PathSpec`, `TypeStatements`, `StatementSpec`, `RoundTrip` | what is parsed and printed, on values: types, paths, statements, files; and that parsing undoes printing of types |
| `SyntaxTrees`, `TreesKept` | statements with all their tokens: reading the tokens of a tree gives its statement, and whatever is read has a tree |
| `Comments`, `Stream`, `Rounds`, `Parser` | comments and the tokens they belong to; the tokens ahead; loops round by round; the parser |
| `Formatting`, `TextTrip`, `TypeText` | the words of what was parsed; from types to laid-out text and back |
| `Printer`, `Squeezing`, `PrintTrip`, `Indentation` | the text that the printer writes for a type, what it changes in tags, what is read back from it, and how it is indented |
| `Declared`, `NodeText` | what files declare, with the comments at its tokens; the texts of tokens, routes, service names and empty structs |
| `Reading`, `Weaving`, `RouteTrip`, `RouteWords`, `RouteRemarks`, `BareRoutes` | what the text of a route tells: words and comments can be read in one way only, and so routes printed alike are alike |
| `Offsets` | lists that are put together of parts, given by the offsets of the parts |
| `Imports`, `Declarations`, `Filter` | import resolution; the checks on types, handlers and routes |
| `Conversion`, `Services`, `Analyzer` | types and services converted, on values, and when they are; the analyzer |
| `Files`, `Meaning`, `NodeFacts`, `Alignment`, `Places`, `Sources` | what the text of a file declares, with positions and comments: what its statements say, where its tokens stand, and what the checks rely on |
| `Analysis`, `Remarks` | the analysis of a whole program; programs that differ in comments only and are told apart |
| `SortedMap`, `Env`, `FileNaming`, `CamelCase` | the helpers |

Where the code differs from what its comments or names suggest, the model follows the code:

- A comment in slashes and stars ends at the first slash after the first star of its body, even if the two are apart.
- Newlines inside strings and comments are not counted as lines.
- A NUL rune reads as the end of the input; a lone `@` at the end is returned over and over, and the second time the
  parser takes it, it drops the comments attached to it; of two dots without a third the first is dropped.
- Checks compare printed texts, and these hold comments. The same route with different comments is no duplicate
  (pkg/parser/api/parser/api.go:135-139), a service with a comment behind its name is another one than without
  (pkg/parser/api/parser/analyzer.go:292-296), and files whose syntax differs in a comment are not merged
  (pkg/parser/api/parser/api.go:239). The text of a field of an empty struct is not `{}` if a comment stands above or
  behind its braces, and only then it converts (pkg/parser/api/parser/analyzer.go:53-55).
- Which comments are printed of a route depends on its bodies: with one, those behind the path are dropped; those
  behind the method always are, and those above the last closing parenthesis
  (pkg/parser/api/ast/servicestatement.go:395-421).
- The text of a service's name is written as a format without arguments (pkg/parser/api/ast/writer.go:359-361), so that
  a percent sign in a comment behind it is taken for a verb.
- The check for several service names in one program can never report anything (pkg/parser/api/parser/api.go:120-128).
- The printer drops a blank before and after each newline of the text it writes, also within a tag
  (pkg/parser/api/ast/writer.go:394-395), and the column writer takes a tab within a tag for the end of a column: such
  tags are not printed as they were written. `PrintTrip` says exactly when a printed type is read back.
- Comments on the line of a token belong to that token, even those that begin on its line and end on a later one, and
  others to the next token (pkg/parser/api/parser/parser.go:1607-1625).
- A path may not go on behind a slash that has a comment on its line (pkg/parser/api/parser/parser.go:390-432).
- No check looks at the names in the bodies of routes (pkg/parser/api/parser/api.go:324-341); an undeclared one is only
  found when services are converted.
- A body `[]*T` converts to a pointer to `T`, and not to a list (pkg/parser/api/parser/analyzer.go:423-434).
- A type group without declarations is printed as nothing.
- A pointer to `any` converts to a pointer to a primitive type, although `any` itself does not convert
  (pkg/parser/api/parser/analyzer.go:42-43, 84-88).
- Positions carry the base name of a file only (pkg/parser/api/scanner/scanner.go:640), so that two declarations
  that stand in the same line and column of two files of the same base name count as one for the duplicate checks.
- After the semicolon of a route the result of reading on is ignored; an error of the scanner there is noticed one
  step later.

`dafny verify dfyconfig.toml` checks everything.

## Model

| member | source | states |
|---|---|---|
| `Scanner.Scanner.constructor` | pkg/parser/api/scanner/scanner.go:625-651 | a new scanner stands on the first rune, with a newline table that makes the first line line one |
| `Scanner.Scanner.New` | pkg/parser/api/scanner/scanner.go:625-651 | there is a scanner exactly for a source that is not empty; it is new, and holds that source |
| `Scanner.Scanner.NextToken` | pkg/parser/api/scanner/scanner.go:50-124 | one call skips white space, notes its newlines, and returns the token of the lexeme that the lexical functions give for the source at the cursor; the cursor is then at that lexeme's end, and an error is returned exactly for an error lexeme |
| `Scanner.Scanner.ScanToken` | pkg/parser/api/scanner/scanner.go:52-123 | the same for a cursor that is on no white space: nothing but the cursor changes, and it moves exactly past the lexeme |
| `Scanner.Scanner.NewToken` | pkg/parser/api/scanner/scanner.go:126-134 | a one-rune token at the cursor, which moves one rune |
| `Scanner.Scanner.ReadRune` | pkg/parser/api/scanner/scanner.go:136-144 | the cursor moves one rune, and past the end reads NUL |
| `Scanner.Scanner.SkipWhiteSpace` | pkg/parser/api/scanner/scanner.go:587-591 | the cursor moves to the end of the white space, and the newline table grows by exactly the newlines passed |
| `Scanner.Scanner.IsWhiteSpace` | pkg/parser/api/scanner/scanner.go:608-613 | the answer for a rune, and the side effect: a newline at the cursor is noted |
| `Scanner.Scanner.ScanLineComment` | pkg/parser/api/scanner/scanner.go:484-495 | a line comment ends before the newline, a NUL or the end |
| `Scanner.Scanner.ScanDots` | pkg/parser/api/scanner/scanner.go:75-93 | one dot is a dot, three are an ellipsis, and of two the first is dropped |
| `Scanner.Scanner.ScanDocument` | pkg/parser/api/scanner/scanner.go:497-538 | a comment in slashes and stars ends at the first slash after the first star of its body; without one it is an error |
| `Scanner.Scanner.ScanString` | pkg/parser/api/scanner/scanner.go:153-187 | a string ends at the next delimiter; without one it is an error |
| `Scanner.Scanner.ScanAt` | pkg/parser/api/scanner/scanner.go:189-228 | the three known words after `@`; a lone `@` at the end is illegal and not left; anything else is an error |
| `Scanner.Scanner.ScanLetterSet` | pkg/parser/api/scanner/scanner.go:476-482 | the run of letters at the cursor, which moves past it |
| `Scanner.Scanner.ScanIdent` | pkg/parser/api/scanner/scanner.go:442-474 | an identifier, a key if a colon follows it, `interface{}` as one token if that is what stands there |
| `Scanner.Scanner.ScanIntOrDuration` | pkg/parser/api/scanner/scanner.go:230-245 | digits, and a duration if a unit starts behind them |
| `Scanner.Scanner.ScanDuration` | pkg/parser/api/scanner/scanner.go:248-263 | a duration from its first unit on |
| `Scanner.Scanner.ScanNanosecond` | pkg/parser/api/scanner/scanner.go:265-277 | after `n`: the unit `ns`, which ends the duration: the lexeme of the duration as a whole is the one of the lexical functions |
| `Scanner.Scanner.ScanMicrosecond` | pkg/parser/api/scanner/scanner.go:279-304 | after the micro sign: the unit, and then only nanoseconds: the lexeme of the duration as a whole is the one of the lexical functions |
| `Scanner.Scanner.ScanMillisecondOrMinute` | pkg/parser/api/scanner/scanner.go:306-321 | after `m`: minutes, unless an `s` makes it milliseconds: the lexeme of the duration as a whole is the one of the lexical functions |
| `Scanner.Scanner.ScanMillisecond` | pkg/parser/api/scanner/scanner.go:323-345 | on the `s` of `ms`: the end of the unit, and then only smaller ones: the lexeme of the duration as a whole is the one of the lexical functions |
| `Scanner.Scanner.ScanOnlyMillisecond` | pkg/parser/api/scanner/scanner.go:366-371 | after seconds, `m` can only begin milliseconds; without an `s` behind it it is illegal: the lexeme of the duration as a whole is the one of the lexical functions |
| `Scanner.Scanner.ScanSecond` | pkg/parser/api/scanner/scanner.go:347-375 | after seconds only smaller units: the lexeme of the duration as a whole is the one of the lexical functions |
| `Scanner.Scanner.ScanMinute` | pkg/parser/api/scanner/scanner.go:377-406 | after minutes only smaller units: the lexeme of the duration as a whole is the one of the lexical functions |
| `Scanner.Scanner.ScanHour` | pkg/parser/api/scanner/scanner.go:408-434 | after hours only smaller units: the lexeme of the duration as a whole is the one of the lexical functions |
| `Scanner.Scanner.IllegalToken` | pkg/parser/api/scanner/scanner.go:436-440 | one illegal rune, or NUL past the end, and the cursor one further |
| `Grammar.ScannerReadsGrammar` | pkg/parser/api/scanner/scanner.go:50-538 | for every source and offset: the scanner reads a lexeme there if and only if the grammar, which knows no loops and no offsets, has that lexeme and the two runes behind it do not extend it |
| `Grammar.DurationExact` | pkg/parser/api/scanner/scanner.go:230-434 | a number is read as one duration exactly if it is a non-empty run of digits and units whose units strictly fall, and what follows does not extend it |
| `Grammar.DurationSound` | pkg/parser/api/scanner/scanner.go:248-434 | every duration read is spelled by components of strictly falling units |
| `Grammar.DurationComplete` | pkg/parser/api/scanner/scanner.go:248-434 | every run of components with strictly falling units, not extended by what follows, is read whole |
| `Grammar.IdentExact` | pkg/parser/api/scanner/scanner.go:442-474 | the three readings of an identifier, both ways |
| `Grammar.IntExact` | pkg/parser/api/scanner/scanner.go:230-245 | numbers, both ways |
| `Grammar.StringExact` | pkg/parser/api/scanner/scanner.go:153-187 | strings and raw strings, both ways |
| `Grammar.LineCommentExact` | pkg/parser/api/scanner/scanner.go:484-495 | line comments, both ways |
| `Grammar.DocumentExact` | pkg/parser/api/scanner/scanner.go:497-538 | comments in slashes and stars, both ways, with the early end that the code gives them |
| `Grammar.AtExact` | pkg/parser/api/scanner/scanner.go:189-228 | the `@` words, both ways |
| `Grammar.SignExact` | pkg/parser/api/scanner/scanner.go:54-108 | signs, both ways |
| `Source.Extent` | pkg/parser/api/scanner/scanner.go:50-538 | the only things one call can do before the end: read a lexeme whole (its text is the slice it covers, in bounds), report one illegal rune, drop a dot, stay on a lone `@`, or fail |
| `Source.Progress` | pkg/parser/api/scanner/scanner.go:50-124 | a call that is not the last one of its kind strictly advances the cursor, and started before the end of the source |
| `Source.OnlyIllegalStops` | pkg/parser/api/scanner/scanner.go:50-124 | only the end, an error and an illegal rune can keep the cursor in place |
| `Source.StopsForGood` | pkg/parser/api/scanner/scanner.go:189-195 | a scanner that stops without an error repeats its last token for ever |
| `Source.CallsDeliverTokens` | pkg/parser/api/scanner/scanner.go:50-124 | however many calls are made, the tokens delivered are those of the one finite list, the last one over and over |
| `Source.PositionsIncrease` | pkg/parser/api/scanner/scanner.go:570-585 | over all tokens of every file that have a position, positions strictly increase, line before column |
| `Source.LinesAreNewlines` | pkg/parser/api/scanner/scanner.go:574-613 | the newline table lists exactly the newlines passed if and only if no token spans a newline |
| `Positions.PositionsAreReal` | pkg/parser/api/scanner/scanner.go:570-651 | if no token before it spans a newline, a token is reported on the line of the source on which it starts, counted from one, and in the column that is its distance to the newline before it |
| `Faults.ErrorExact` | pkg/parser/api/scanner/scanner.go:153-228 | the scanner fails exactly at strings without a second delimiter, at comments in slashes and stars that do not end, and at an `@` behind which neither the end nor one of the three known words stands |
| `Source.SpanningStringMiscounts` | pkg/parser/api/scanner/scanner.go:153-187 | a source for which it does not: a raw string over two lines, and a name behind it that is reported on the first |
| `Source.NothingLost` | pkg/parser/api/scanner/scanner.go:50-538 | without illegal runes, errors and dropped dots, the tokens' texts, with white space between them, rebuild the source |
| `Layout.LayoutReadBack` | pkg/parser/api/scanner/scanner.go:50-538 | text laid out lexeme by lexeme, with white space wherever a lexeme would be extended, is scanned back as those lexemes, each on the line it was put on, up to whatever follows |
| `RoundTrip.TypeRoundTrip` | pkg/parser/api/parser/parser.go:732-1040 | parsing the tokens printed for any well-formed type gives the type back and leaves exactly the tokens behind it |
| `RoundTrip.ElemsRoundTrip` | pkg/parser/api/parser/parser.go:806-825 | the same for the elements of a struct, each on its own line |
| `RoundTrip.ElemRoundTrip` | pkg/parser/api/parser/parser.go:827-903 | the same for an element with several names, an anonymous one and a tagged one: the line of the next token decides, as in the code |
| `RoundTrip.NamesRoundTrip` | pkg/parser/api/parser/parser.go:866-880 | the same for the further names of an element |
| `TypeStatements.TypesRoundTrip` | pkg/parser/api/parser/parser.go:625-730 | the same for a type declaration and a group of them |
| `TypeStatements.ExprsRoundTrip` | pkg/parser/api/parser/parser.go:679-698 | the same for the declarations of a group |
| `TypeStatements.StmtRoundTrip` | pkg/parser/api/ast/typestatement.go:75-89 | a printed type statement is read back exactly if it is no empty group, of which nothing is printed |
| `Formatting.TypeKept` | pkg/parser/api/ast/typestatement.go:255-796 | a type that was parsed from tokens of the language is well formed, and its tokens are exactly the words it was parsed from |
| `Formatting.ElemsKept` | pkg/parser/api/ast/typestatement.go:700-767 | the same for the elements of a struct |
| `Formatting.ElemKept` | pkg/parser/api/ast/typestatement.go:710-763 | the same for one element |
| `TextTrip.WritesSeparated` | pkg/parser/api/scanner/scanner.go:442-474 | printed tokens need white space only between words and between `interface` and a brace: with that much, no two of them merge or split |
| `TextTrip.PlacedMarks` | pkg/parser/api/parser/parser.go:827-863 | a layout that breaks lines where a printed type does gives the parser exactly the printed tokens, line by line |
| `TypeText.TypePrintable` | pkg/parser/api/ast/typestatement.go:255-796 | a well-formed type is printed with tokens of the language only |
| `TypeText.TextRoundTrip` | pkg/parser/api/parser/parser.go:732-1040 | any layout of any well-formed type that breaks lines where the printer does and keeps words apart, scanned and then parsed, gives the type back and leaves exactly what follows |
| `TypeText.RawTextIsTight` | pkg/parser/api/ast/writer.go:144-171 | the raw text of a type without structs is its printed tokens with nothing between them, and nothing is needed |
| `TypeText.RawTextRoundTrip` | pkg/parser/api/ast/typestatement.go:353-379 | the raw text of a type without structs, in a source and followed by anything that does not extend it, scans and parses back to the type |
| `TypeText.RawTextParses` | pkg/parser/api/ast/typestatement.go:519-547 | alone in a file the raw text parses to the type and nothing is left |
| `TypeText.SpacedTextParses` | pkg/parser/api/parser/parser.go:732-1040 | every well-formed type, whatever its tags hold, can be written so that it is parsed |
| `TypeText.ScannedLegal` | pkg/parser/api/scanner/scanner.go:50-538 | whatever the source, each token the parser sees has a text that its kind allows |
| `TypeText.ParsedIsWellFormed` | pkg/parser/api/parser/parser.go:732-1040 | a type parsed from any source is well formed, and consists of the very words it was parsed from |
| `TypeText.WellFormedIffParsed` | pkg/parser/api/parser/parser.go:732-1040 | the types that some source parses to are exactly the well-formed ones |
| `Printer.SqueezeShorter` | pkg/parser/api/ast/writer.go:394-395 | the two replacements shorten a text exactly if a blank stands next to a newline in it |
| `Squeezing.SqueezedFacts` | pkg/parser/api/ast/writer.go:394-395 | a type whose tags go through the replacements stays well formed, and stays the same exactly if no tag has a blank next to a newline |
| `PrintTrip.TypeLaid` | pkg/parser/api/ast/typestatement.go:255-796 | what is written for a type is a layout of its tokens with the tags so changed: the right line breaks, words kept apart, whatever the padding of columns, and whichever tags stand on lines of their own |
| `Indentation.ElemFront` | pkg/parser/api/ast/typestatement.go:700-767 | a named element begins with its names, one tab further in than its struct, with a comma and a blank between them, and then a tab, or a blank if there is a struct in its type |
| `Indentation.ElemBack` | pkg/parser/api/ast/typestatement.go:700-767 | a tag ends its element: behind a tab or that blank, or on a line of its own if it stood on a later line than the end of a type with a struct in it |
| `Indentation.StructEnds` | pkg/parser/api/ast/typestatement.go:700-767 | with columns not padded, a struct that is not empty begins with a brace and a line break, and its last line is a brace as far in as the struct |
| `Indentation.NestedEnds` | pkg/parser/api/ast/typestatement.go:700-767 | the closing brace of a struct within a struct is one tab further in |
| `PrintTrip.PrintedTextParses` | pkg/parser/api/ast/typestatement.go:700-767 | the printed text of a type, structs included, parses to the type with its tags so changed, if no tag holds a tab or a form feed |
| `PrintTrip.PrintedTextRoundTrip` | pkg/parser/api/ast/typestatement.go:700-767 | among types without tabs in their tags, the printed text parses back to the type exactly if no tag has a blank next to a newline |
| `PrintTrip.ParsePrintParse` | pkg/parser/api/parser/parser.go:732-1040 | a type parsed from any source, if its tags have no tabs, is read back from its printed text exactly if none of them has a blank next to a newline |
| `PrintTrip.PrintedIsInjective` | pkg/parser/api/ast/typestatement.go:255-796 | types without tabs in their tags that are printed alike differ at most in what the replacements drop, and are one type if neither has a blank next to a newline in a tag |
| `PrintTrip.PrintedAlike` | pkg/parser/api/ast/writer.go:394-395 | two types for which that condition is needed: tags over two lines, one with a blank before the newline, are printed alike |
| `PrintTrip.TabsPrintedAlike` | pkg/parser/api/ast/writer.go:394-401 | two types for which the tabs are to be excluded: a tag with a tab and one with a blank can be printed alike |
| `PrintTrip.PrintedRawText` | pkg/parser/api/ast/writer.go:144-171 | the printed text of a type without structs is its raw text |
| `PathSpec.PathExact` | pkg/parser/api/parser/parser.go:386-485 | a path is parsed exactly if its tokens have the form of one (given by which kind may follow which) and something that ends a path follows |
| `PathSpec.PathTaken` | pkg/parser/api/parser/parser.go:386-485 | the tokens of a parsed path are exactly those up to what follows it |
| `PathSpec.PathReads` | pkg/parser/api/parser/parser.go:386-485 | every path is read whole, whatever ends it |
| `Rounds.JoinTexts` | pkg/parser/api/parser/parser.go:435-438 | the text of a path is the texts of its tokens put together |
| `Parser.Parser.New` | pkg/parser/api/parser/parser.go:41-54 | there is a parser exactly for a source that is not empty, on which the original ends the program; it is new, and has read nothing of that source |
| `Parser.Parser.constructor` | pkg/parser/api/parser/parser.go:41-54 | a new parser has read nothing, and all comments and all nodes of the file are ahead |
| `Parser.Parser.NextToken` | pkg/parser/api/parser/parser.go:1577-1628 | without an error, every comment of the file is attached to a token, is a statement, waits for the next token or is still ahead: in order, none lost, none twice; and until an illegal token is taken, the nodes made and those still to be made are the nodes of the file, in which a comment on the line of a token is behind it and any other is above the next one; unless the token taken was taken before, and then exactly if it had no comments; a token of another kind than illegal is never taken twice, the token taken gets a node of its own, and no other token's node changes; the tokens ahead lose exactly their first |
| `Stream.StuckIsLoneAt` | pkg/parser/api/scanner/scanner.go:189-195 | only the end of the input and a lone `@` before it are ever delivered again |
| `Stream.LoneAtAfterComment` | pkg/parser/api/scanner/scanner.go:189-195 | a source in which that loses a comment: a comment line, and then a lone `@` |
| `Comments.AccountAgain` | pkg/parser/api/parser/parser.go:1591-1599 | a token taken again loses comments exactly if it had any |
| `Parser.Parser.Start` | pkg/parser/api/parser/parser.go:1569-1609 | the first call takes no token and reads the look-ahead |
| `Parser.Parser.Flush` | pkg/parser/api/parser/parser.go:1582-1589 | at the end of the input the waiting comments become statements |
| `Parser.Parser.Advance` | pkg/parser/api/parser/parser.go:1591-1627 | the look-ahead becomes the current token, with the comments that waited for it and those behind it on its line |
| `Parser.Parser.ReadPeek` | pkg/parser/api/parser/parser.go:1601-1621 | comments on the way to the next token go to the current token if they are on its line, and else wait; each is accounted for, and what is ahead makes the same nodes as before |
| `Parser.Parser.PassComment` | pkg/parser/api/parser/parser.go:1608-1621 | one round of that loop: the comment read goes behind the current token or waits, and the next token is read |
| `Parser.Parser.KeepComment` | pkg/parser/api/parser/parser.go:1609-1614 | a comment belongs to the current token exactly if it stands on its line |
| `Parser.Parser.CurText` | pkg/parser/api/parser/parser.go:1630-1636 | the node looked up for the current token is the one made for it |
| `Parser.Parser.ParseTag` | pkg/parser/api/parser/parser.go:889-901 | reads the tag of an element if there is one, and fails before what cannot follow an element |
| `Parser.Parser.ParseDataType` | pkg/parser/api/parser/parser.go:732-776 | reads from the tokens ahead what `ParseType` reads, leaves exactly what it leaves, keeps all comments and records no error; or records an error and returns nothing, exactly when it fails |
| `Parser.Parser.ParseAnyDataType` | pkg/parser/api/parser/parser.go:905-914 | reads from the tokens ahead what `ParseType` reads, leaves exactly what it leaves, keeps all comments and records no error; or records an error and returns nothing, exactly when it fails |
| `Parser.Parser.ParseInterfaceDataType` | pkg/parser/api/parser/parser.go:939-948 | reads from the tokens ahead what `ParseType` reads, leaves exactly what it leaves, keeps all comments and records no error; or records an error and returns nothing, exactly when it fails |
| `Parser.Parser.ParseBaseDataType` | pkg/parser/api/parser/parser.go:732-776 | reads from the tokens ahead what `ParseType` reads, leaves exactly what it leaves, keeps all comments and records no error; or records an error and returns nothing, exactly when it fails |
| `Parser.Parser.ParseBracketDataType` | pkg/parser/api/parser/parser.go:754-768 | reads from the tokens ahead what `ParseType` reads, leaves exactly what it leaves, keeps all comments and records no error; or records an error and returns nothing, exactly when it fails |
| `Parser.Parser.ParseSliceDataType` | pkg/parser/api/parser/parser.go:1020-1040 | reads from the tokens ahead what `ParseBrackets` reads, leaves exactly what it leaves, keeps all comments and records no error; or records an error and returns nothing, exactly when it fails |
| `Parser.Parser.ParseArrayDataType` | pkg/parser/api/parser/parser.go:991-1018 | reads from the tokens ahead what `ParseBrackets` reads, leaves exactly what it leaves, keeps all comments and records no error; or records an error and returns nothing, exactly when it fails |
| `Parser.Parser.ParseMapDataType` | pkg/parser/api/parser/parser.go:950-989 | reads from the tokens ahead what `ParseType` reads, leaves exactly what it leaves, keeps all comments and records no error; or records an error and returns nothing, exactly when it fails |
| `Parser.Parser.ParsePointerDataType` | pkg/parser/api/parser/parser.go:916-937 | reads from the tokens ahead what `ParseType` reads, leaves exactly what it leaves, keeps all comments and records no error; or records an error and returns nothing, exactly when it fails |
| `Parser.Parser.ParseStructDataType` | pkg/parser/api/parser/parser.go:777-804 | reads from the tokens ahead what `ParseType` reads, leaves exactly what it leaves, keeps all comments and records no error; or records an error and returns nothing, exactly when it fails |
| `Parser.Parser.ParseElemExprList` | pkg/parser/api/parser/parser.go:806-825 | reads from the tokens ahead what `ParseElems` reads, leaves exactly what it leaves, keeps all comments and records no error; or records an error and returns nothing, exactly when it fails |
| `Parser.Parser.ParseElemExpr` | pkg/parser/api/parser/parser.go:827-903 | reads from the tokens ahead what `ParseElem` reads, leaves exactly what it leaves, keeps all comments and records no error; or records an error and returns nothing, exactly when it fails |
| `Parser.Parser.ParseElemRest` | pkg/parser/api/parser/parser.go:837-888 | reads from the tokens ahead what `ParseElemBody` reads, leaves exactly what it leaves, keeps all comments and records no error; or records an error and returns nothing, exactly when it fails |
| `Parser.Parser.ParseFurtherNames` | pkg/parser/api/parser/parser.go:866-880 | reads from the tokens ahead what `ParseNames` reads, leaves exactly what it leaves, keeps all comments and records no error; or records an error and returns nothing, exactly when it fails |
| `Parser.Parser.ParsePathItem` | pkg/parser/api/parser/parser.go:451-485 | collects the tokens that the specification of a path item reads, or fails with it |
| `Parser.Parser.ParsePathRound` | pkg/parser/api/parser/parser.go:390-432 | one round of the loop over a path: a slash and, unless the path ends, a segment, and then no comment may stand behind the slash; it fails exactly when the specification does |
| `Parser.Parser.ParsePathTokens` | pkg/parser/api/parser/parser.go:386-433 | collects the tokens of a path, the first of them the one that was next; fails exactly if there is no path there, as behind a slash with a comment that is not its end |
| `Parser.Parser.ParsePathExpr` | pkg/parser/api/parser/parser.go:386-449 | a path token has the texts of exactly the tokens consumed and the position of the first; there is one exactly if there is a path that is not empty |
| `Parser.Parser.ParsePathSegment` | pkg/parser/api/parser/parser.go:414-429 | collects what follows a slash, or fails with the specification |
| `Parser.Parser.TakePart` | pkg/parser/api/parser/parser.go:1151-1174 | reads what `StatementSpec.ParsePart` reads and leaves what it leaves, with all comments kept; or records an error, exactly when it fails |
| `Parser.Parser.TakeParts` | pkg/parser/api/parser/parser.go:1227-1321 | reads what `StatementSpec.ParseParts` reads and leaves what it leaves, with all comments kept; or records an error, exactly when it fails |
| `Parser.Parser.ParseAtServerValue` | pkg/parser/api/parser/parser.go:1145-1328 | reads what `StatementSpec.ParseServerValue` reads and leaves what it leaves, with all comments kept; or records an error, exactly when it fails |
| `Parser.Parser.ParseWordValue` | pkg/parser/api/parser/parser.go:1220-1328 | reads what `StatementSpec.WordValue` reads and leaves what it leaves, with all comments kept; or records an error, exactly when it fails |
| `Parser.Parser.ParseKVExpression` | pkg/parser/api/parser/parser.go:1331-1349 | reads what `StatementSpec.ParseKV` reads and leaves what it leaves, with all comments kept; or records an error, exactly when it fails |
| `Parser.Parser.ParseKVList` | pkg/parser/api/parser/parser.go:1113-1123 | reads what `StatementSpec.ParseKVs` reads and leaves what it leaves, with all comments kept; or records an error, exactly when it fails |
| `Parser.Parser.ParseKVGroup` | pkg/parser/api/parser/parser.go:1102-1133 | reads what `StatementSpec.ParseKVGroup` reads and leaves what it leaves, with all comments kept; or records an error, exactly when it fails |
| `Parser.Parser.ParseAtDocStmt` | pkg/parser/api/parser/parser.go:520-576 | reads what `StatementSpec.ParseDoc` reads and leaves what it leaves, with all comments kept; or records an error, exactly when it fails |
| `Parser.Parser.ParseImportStmt` | pkg/parser/api/parser/parser.go:1042-1100 | reads what `StatementSpec.ParseImport` reads and leaves what it leaves, with all comments kept; or records an error, exactly when it fails |
| `Parser.Parser.ParseImportGroup` | pkg/parser/api/parser/parser.go:1080-1090 | reads what `StatementSpec.ParseStrings` reads and leaves what it leaves, with all comments kept; or records an error, exactly when it fails |
| `Parser.Parser.ParseSyntaxStmt` | pkg/parser/api/parser/parser.go:1352-1371 | reads what `StatementSpec.ParseSyntax` reads and leaves what it leaves, with all comments kept; or records an error, exactly when it fails |
| `Parser.Parser.ParseBodyName` | pkg/parser/api/parser/parser.go:337-383 | reads what `StatementSpec.ParseBodyName` reads and leaves what it leaves, with all comments kept; or records an error, exactly when it fails |
| `Parser.Parser.ParseBodyExpr` | pkg/parser/api/parser/parser.go:320-384 | reads what `StatementSpec.ParseBodyExpr` reads and leaves what it leaves, with all comments kept; or records an error, exactly when it fails |
| `Parser.Parser.ParseBodyStmt` | pkg/parser/api/parser/parser.go:285-318 | reads what `StatementSpec.ParseBody` reads and leaves what it leaves, with all comments kept; or records an error, exactly when it fails |
| `Parser.Parser.ParseServiceNameExpr` | pkg/parser/api/parser/parser.go:487-518 | reads what `StatementSpec.ParseServiceName` reads and leaves what it leaves, with all comments kept; or records an error, exactly when it fails |
| `Parser.Parser.SkipOneSemicolon` | pkg/parser/api/parser/parser.go:278-280 | the same for `StatementSpec.SkipSemicolon`, except that an error of the scanner behind a semicolon is left to the caller to see |
| `Parser.Parser.ParseReturnsStmt` | pkg/parser/api/parser/parser.go:259-282 | the same for `StatementSpec.ParseReturns`, except that an error of the scanner behind a semicolon is left to the caller to see |
| `Parser.Parser.ParseBodiesOf` | pkg/parser/api/parser/parser.go:236-282 | the same for `StatementSpec.ParseBodies`, except that an error of the scanner behind a semicolon is left to the caller to see |
| `Parser.Parser.ParseRouteStmt` | pkg/parser/api/parser/parser.go:219-283 | the same for `StatementSpec.ParseRoute` |
| `Parser.Parser.ParseHandledRoute` | pkg/parser/api/parser/parser.go:192-217 | the same for `StatementSpec.ParseHandled` |
| `Parser.Parser.ParseServiceItemStmt` | pkg/parser/api/parser/parser.go:176-217 | the same for `StatementSpec.ParseServiceItem` |
| `Parser.Parser.ParseServiceItemsStmt` | pkg/parser/api/parser/parser.go:155-174 | the same for `StatementSpec.ParseItems` |
| `Parser.Parser.ParseServiceBody` | pkg/parser/api/parser/parser.go:116-152 | the same for `StatementSpec.ParseNamedService` |
| `Parser.Parser.ParseService` | pkg/parser/api/parser/parser.go:103-153 | the same for `StatementSpec.ParseServiceStmt` |
| `Parser.Parser.ParseStmt` | pkg/parser/api/parser/parser.go:77-101 | the same for `StatementSpec.ParseStmtAfter` |
| `Parser.Parser.ParseTypeExpr` | pkg/parser/api/parser/parser.go:700-730 | reads what `TypeStatements.ParseTypeExpr` reads and leaves what it leaves, or records an error exactly when it fails |
| `Parser.Parser.ParseTypeExprList` | pkg/parser/api/parser/parser.go:679-698 | reads what `TypeStatements.ParseTypeExprs` reads and leaves what it leaves, or records an error exactly when it fails |
| `Parser.Parser.ParseTypeStmt` | pkg/parser/api/parser/parser.go:625-649 | reads what `TypeStatements.ParseTypes` reads and leaves what it leaves, or records an error exactly when it fails |
| `Parser.Parser.ParseTypeGroup` | pkg/parser/api/parser/parser.go:651-677 | reads what `TypeStatements.ParseGroup` reads and leaves what it leaves, or records an error exactly when it fails |
| `Parser.Parser.NextStart` | pkg/parser/api/parser/parser.go:62-72 | the step to the next statement: it fails exactly if the rest of the file is none that the specification reads for want of a token |
| `Parser.Parser.ParseStmtAndOn` | pkg/parser/api/parser/parser.go:62-72 | one round of the loop over statements consumes tokens and reads what the specification reads first |
| `Parser.Parser.Parse` | pkg/parser/api/parser/parser.go:56-75 | terminates on every source; there are statements exactly if the specification reads the tokens of the file, and then those that it reads; else an error is recorded; with a result, the comments of the whole file are, in order, those attached to the tokens and those at the end, and the nodes of the tokens are those of the file, with exactly the comments above and behind each token |
| `SyntaxTrees.FileRoundTrip` | pkg/parser/api/parser/parser.go:56-101 | the tokens of any list of syntax trees are read as the statements they stand for, up to the end of the file |
| `SyntaxTrees.StmtReads` | pkg/parser/api/parser/parser.go:77-101 | the same for each kind of statement, whatever follows it |
| `SyntaxTrees.ServiceReads` | pkg/parser/api/parser/parser.go:103-217 | the same for a service, with its annotation, its documentations, handlers and routes |
| `SyntaxTrees.ItemsRead` | pkg/parser/api/parser/parser.go:155-217 | the same for the items of a service, of which the last may be without a handler |
| `SyntaxTrees.RouteReads` | pkg/parser/api/parser/parser.go:219-283 | the same for a route: method, path, bodies and an optional semicolon |
| `SyntaxTrees.ServerValueReads` | pkg/parser/api/parser/parser.go:1145-1328 | the same for each form that the value of an `@server` key may have |
| `TreesKept.SourceKept` | pkg/parser/api/parser/parser.go:56-101 | every source that parses consists, but for comments, of exactly the words of syntax trees that stand for its statements, and those words parse back to the statements |
| `TreesKept.FileKept` | pkg/parser/api/parser/parser.go:56-101 | the same for any tokens: parsing loses and invents nothing |
| `TreesKept.StmtKept` | pkg/parser/api/parser/parser.go:77-101 | the same for each kind of statement |
| `TreesKept.ServiceKept` | pkg/parser/api/parser/parser.go:103-217 | the same for a service |
| `TreesKept.ItemsKept` | pkg/parser/api/parser/parser.go:155-217 | the same for the items of a service |
| `TreesKept.RouteKept` | pkg/parser/api/parser/parser.go:219-283 | the same for a route |
| `TreesKept.ServerValueTaken` | pkg/parser/api/parser/parser.go:1145-1328 | the value of an `@server` key is the text of the tokens read, which have one of its forms |
| `StatementSpec.ServerValueText` | pkg/parser/api/parser/parser.go:1145-1328 | the value of an `@server` key has the text of exactly the tokens it was read from |
| `StatementSpec.PartsText` | pkg/parser/api/parser/parser.go:1227-1321 | the same for a list, a dashed word and the further parts of a path |
| `NodeFacts.NodesAndMarks` | pkg/parser/api/parser/parser.go:1577-1628 | the nodes of a text are, one by one, the tokens that the parser sees, up to one that ends every parse |
| `NodeFacts.NodesAndFlags` | pkg/parser/api/parser/parser.go:1601-1621 | a token that the parser sees begins a line exactly if it is on a later line than the node before it, and a comment is noted before it exactly if that node has comments behind it |
| `NodeFacts.TextNodesAreWell` | pkg/parser/api/parser/parser.go:1601-1621 | in the nodes of every text comments have the shape of comments, behind a token only the last one may go to the end of the line, nodes do not go back, and what comes after the end of a line or has comments above it is on a later line |
| `Alignment.Aligned` | pkg/parser/api/parser/parser.go:56-101 | token for token, the nodes of a text that parses are those of its syntax trees, so that a declaration has the positions and the comments of its own tokens |
| `Files.HasReading` | pkg/parser/api/parser/parser.go:56-101 | every text that parses has syntax trees with its very words, that stand for its statements |
| `Meaning.FileParsesIff` | pkg/parser/api/parser/api.go:32-86 | a text is a file exactly if it parses, has a statement or a comment, has one statement of syntax and one of information at most, and every item of its services has a handler |
| `Meaning.FileSaysStatements` | pkg/parser/api/parser/api.go:32-86 | what the text of a file declares is what the statements say that the parser returns for it, no more, no less and in order: imports, information keys, types, and services with their annotations, handlers, routes and bodies; group and prefix of a service are the value of the first annotation of that very key, or nothing if there is none |
| `Meaning.ServiceSays` | pkg/parser/api/parser/parser.go:103-217 | the same for a service, whose group and prefix are the values at the first annotation with the key in question |
| `Meaning.ValueIsFirst` | pkg/parser/api/parser/api.go:224-236 | the value looked up for a key is that of the first entry with that key, and nothing if there is no entry with it |
| `Meaning.UnquotedIsBody` | pkg/parser/api/parser/api.go:251-262 | the path of an import is what stands between the quotes of its value |
| `Meaning.RouteSays` | pkg/parser/api/parser/parser.go:219-283 | the same for a route |
| `Places.FileIsPlaced` | pkg/parser/api/parser/parser.go:56-101 | of every text: import values, information keys, type names and handlers stand where a token of theirs stands, the syntax is the printed third token if the first is the word `syntax`, and types, services and routes are stretches of the tokens |
| `Places.RouteIsPlaced` | pkg/parser/api/parser/parser.go:192-283 | a declared route is a stretch of the tokens with their comments: the name of the handler, the method behind it, the path made of the tokens that follow, then those of the bodies, one by one |
| `Places.BodyIsPlaced` | pkg/parser/api/parser/parser.go:285-384 | the same for a body, from one parenthesis to the other |
| `Places.ServiceIsPlaced` | pkg/parser/api/parser/parser.go:103-153 | the name of a service is made of one token or three before its brace, with the comments behind the last, and its routes stand in the text |
| `Places.ExprAtIsPlaced` | pkg/parser/api/parser/parser.go:700-730 | the nodes of a declared type are the tokens behind its name, or behind an equals sign, that spell it |
| `Imports.ImportStack.Push` | pkg/parser/api/importstack/importstack.go:15-23 | refuses exactly a path that is on the stack, and else puts it on top |
| `Imports.ImportStack.Pop` | pkg/parser/api/importstack/importstack.go:25-27 | takes the top off |
| `Imports.Api.constructor` | pkg/parser/api/parser/api.go:32-86 | the API of one file holds all type and service statements of that file, which for its text are those of `Files.FileIn` |
| `Imports.Api.MergeApi` | pkg/parser/api/parser/api.go:238-249 | merging is refused exactly if the printed values of the syntax, comments included, differ, and then changes nothing; else the type and service statements of the other API are appended, all of them |
| `Imports.Api.ParseImport` | pkg/parser/api/parser/api.go:263-304 | one import: the stack is restored, the file is finished, and the API returned lists exactly the files newly seen, each once; an error is justified by the files reachable from the root |
| `Imports.Api.ParseImportedApi` | pkg/parser/api/parser/api.go:251-309 | all imports in any order: those returned list exactly the files newly seen, each once, and all imports are finished |
| `Imports.Api.ParseReverse` | pkg/parser/api/parser/api.go:311-322 | after the walk below a file the stack is as before, every file newly seen is merged exactly once, and every error is justified |
| `Imports.Api.MergeAll` | pkg/parser/api/parser/api.go:316-320 | merges the APIs of the imports one after the other |
| `Imports.StackCycle` | pkg/parser/api/parser/api.go:275-278 | an import of a file on the stack is a cycle of the import graph that the root reaches |
| `Imports.WalkingPush` | pkg/parser/api/parser/api.go:275-284 | the stack stays a path of the graph without repetition when a file is opened |
| `Imports.WalkingPop` | pkg/parser/api/parser/api.go:295-300 | when a file is finished, everything it imports was finished before it |
| `Imports.FinishedIsAcyclic` | pkg/parser/api/parser/api.go:275-301 | an order in which files come after all they import has no cycle and holds all reachable files |
| `Imports.WalkIsOver` | pkg/parser/api/parser/api.go:311-322 | a walk that ended has found exactly the reachable files, and nothing to object to |
| `Imports.MergedTypes` | pkg/parser/api/parser/api.go:238-249 | the merged type statements, cut at certain offsets, are those of the files one behind the other: all of each file, and nothing else |
| `Imports.MergedServices` | pkg/parser/api/parser/api.go:238-249 | the same for the service statements |
| `Imports.Parse` | pkg/parser/api/parser/analyzer.go:444-466 | resolution succeeds exactly if all reachable files parse, have the root's syntax with the same comments at it, and no cycle is reachable; if the files are fine it reports a cycle exactly if there is one; every error is justified; on success type and service statements are those of exactly the reachable files, each file once: cut at certain offsets, each list is the lists of the files one behind the other; and the stack holds the root alone |
| `Declarations.CheckIsExact` | pkg/parser/api/parser/api.go:192-222 | the errors of the check are exactly the names in use, at any depth, that are neither built in nor declared |
| `Declarations.CheckAllIsExact` | pkg/parser/api/parser/api.go:177-190 | over all declarations, a name is reported exactly if one of them uses it, and it is neither built in nor declared |
| `Declarations.NamesAreParts` | pkg/parser/api/parser/api.go:192-222 | a type uses exactly the names that stand somewhere in it, at any depth: in elements, in keys, values and elements of lists, and behind pointers |
| `Declarations.ExprsAreCut` | pkg/parser/api/parser/api.go:161-190 | the declarations of a program, cut at certain offsets, are those of its type statements one behind the other |
| `TypeText.StructsArePlaced` | pkg/parser/api/ast/typestatement.go:255-796 | a type contains a struct exactly if one stands at some place in it |
| `Declarations.CheckTypeDeclareContext` | pkg/parser/api/parser/api.go:161-175 | collects the names of all declarations, single and grouped, and checks every type against them |
| `Declarations.CheckTypeContext` | pkg/parser/api/parser/api.go:177-190 | the errors of all types, in order |
| `Conversion.ConversionIsInjective` | pkg/parser/api/parser/analyzer.go:22-132 | the conversion keeps the text of a type as its raw name, so that different types convert to different specification types, unless tags have tabs or blanks next to newlines |
| `Conversion.ConversionKeepsParts` | pkg/parser/api/parser/analyzer.go:22-132 | the value of a converted array, slice, map or pointer is the conversion of the type it is of, `any` behind a pointer is a primitive type, and a struct has a member for each element, with its names, its tag and its converted type |
| `Conversion.ConvertsIff` | pkg/parser/api/parser/analyzer.go:22-132 | a type converts exactly if it has a form given apart from the conversion: `any` only right behind a pointer, arrays of fixed length, no struct in an array, a slice or the value of a map, names or `any` for keys, and no empty struct without a comment at its braces; at every depth |
| `Conversion.MembersConvertIff` | pkg/parser/api/parser/analyzer.go:22-132 | elements convert exactly if the types of all of them do |
| `Conversion.StructsConvertIff` | pkg/parser/api/parser/analyzer.go:326-391 | declarations are converted exactly if each is a struct of which all elements are convertible |
| `Conversion.EmptyStructText` | pkg/parser/api/parser/analyzer.go:53-55 | the test on the raw text of a struct finds exactly the structs without elements that have no comment above or behind their braces |
| `Conversion.RawLikeBase` | pkg/parser/api/parser/analyzer.go:84-88 | of all types only the built-in names and `any` are printed like a built-in name, so that the test on the raw text of a pointer's type is the test on the type |
| `Conversion.FindIsExact` | pkg/parser/api/parser/analyzer.go:393-403 | the first struct of that name is found, and none exactly if there is none |
| `Conversion.FoundIffDeclared` | pkg/parser/api/parser/analyzer.go:393-403 | among converted declarations exactly the declared names are found |
| `Conversion.FillsIffDeclared` | pkg/parser/api/parser/analyzer.go:342-365 | the second phase succeeds exactly if every member that names a type names a built-in or declared one |
| `Conversion.CheckedDeclarationsFill` | pkg/parser/api/parser/analyzer.go:342-365 | declarations that pass the check and convert can always be filled in |
| `Conversion.FilledIsDefined` | pkg/parser/api/parser/analyzer.go:342-365 | filling in keeps all types and members, and gives a member that names a type the struct of that name |
| `Conversion.TypesHaveNames` | pkg/parser/api/parser/analyzer.go:325-368 | after both phases exactly the declared names are found |
| `Conversion.TypesHold` | pkg/parser/api/parser/analyzer.go:325-391 | what converted types are, told without the conversion: one for each declaration, in order, of its name, with a member for each element, of its names and its tag, inline exactly if it has no names, and its type the converted one, with a named type replaced by the first declared struct of that name |
| `Services.ServicesConvert` | pkg/parser/api/parser/analyzer.go:243-302 | services are converted exactly if every body names a built-in or declared type, no request is a list, and all services with routes have one name, with the same comments behind it |
| `Services.GroupsHold` | pkg/parser/api/parser/analyzer.go:243-302 | what converted services are, told without the conversion: one group for each service with one route for each of its routes, in order; with the texts of handler, method and path, without a request exactly if nothing stands in its request, and likewise its response; and a body is a built-in or the declared struct of its name, a pointer to that with a star, and without a star a list of it with brackets |
| `Services.ErrorIsReal` | pkg/parser/api/parser/analyzer.go:243-302 | an error has its reason: a request that is a list, a body that names an undefined type, or two services with routes and different names |
| `Services.UndefinedBodyFails` | pkg/parser/api/parser/analyzer.go:393-434 | a route whose body names a type that is nowhere declared: no check looks at the name, and the conversion fails |
| `Analyzer.Analyzer.FindDefinedType` | pkg/parser/api/parser/analyzer.go:393-403 | searches the types in order |
| `Analyzer.Analyzer.FillTypeExpr` | pkg/parser/api/parser/analyzer.go:370-391 | appends the struct of a declaration, or leaves all as it was |
| `Analyzer.Analyzer.FillStmt` | pkg/parser/api/parser/analyzer.go:326-340 | appends the structs of a statement's declarations, up to one that does not convert |
| `Analyzer.Analyzer.FillAllMembers` | pkg/parser/api/parser/analyzer.go:342-364 | fills in the members of all types, or finds that one cannot be |
| `Analyzer.Analyzer.FillTypes` | pkg/parser/api/parser/analyzer.go:325-368 | a declaration that does not convert is reported exactly if there is one; an undefined name is reported only if the check would have reported it; else the types are the declarations, converted and filled in, and what `Conversion.TypesHold` says of them holds |
| `Analyzer.Analyzer.GetType` | pkg/parser/api/parser/analyzer.go:405-441 | the type of a body that is not empty: a slice, a pointer, a built-in or a defined type; a list in a request and an undefined name are errors; told by the name of the body and its star and brackets, which of these it is |
| `Analyzer.Analyzer.FillRouteType` | pkg/parser/api/parser/analyzer.go:215-241 | looking a defined type up again finds it again |
| `Analyzer.Analyzer.ConvertRoute` | pkg/parser/api/parser/analyzer.go:264-291 | one route: its handler, method and path, the type of its request and that of its response, each none exactly if nothing stands there |
| `Analyzer.Analyzer.FillService` | pkg/parser/api/parser/analyzer.go:243-302 | the groups are the converted routes of all services in order, as `Services.GroupsHold` says, or else an error is returned that has its reason |
| `Filter.DuplicatesExact` | pkg/parser/api/parser/filter.go:17-26 | an error is recorded exactly if two nodes have one text and different positions |
| `Filter.DuplicatesAreAt` | pkg/parser/api/parser/filter.go:17-26 | errors are recorded, in order, at exactly the nodes that stand elsewhere than the first node of their text |
| `Filter.FirstIsExact` | pkg/parser/api/parser/filter.go:17-26 | the map holds the first position of each text |
| `Filter.FirstIsFirst` | pkg/parser/api/parser/filter.go:17-26 | the position held for a text is that of the first node with it |
| `Filter.FilterBuilder.CheckKey` | pkg/parser/api/parser/filter.go:20-24 | one node: the map keeps the first position of every key, and the errors are those of all nodes so far |
| `Filter.FilterBuilder.Check` | pkg/parser/api/parser/filter.go:17-26 | all nodes, under the file name |
| `Filter.FilterBuilder.CheckNodeWithPrefix` | pkg/parser/api/parser/filter.go:28-37 | all nodes, under the prefix |
| `Filter.JoinIsInjective` | pkg/parser/api/parser/filter.go:30 | a prefix and a text without slashes, joined by a slash, can be told apart |
| `Filter.JoinIsAmbiguous` | pkg/parser/api/parser/filter.go:30 | with a slash in the text they cannot |
| `Filter.IdentHasNoSlash` | pkg/parser/api/scanner/scanner.go:442-474 | an identifier has no slash |
| `Filter.TypesDistinct` | pkg/parser/api/parser/api.go:145-159 | type names pass exactly if no two declarations of one name stand in different places |
| `Filter.HandlersDistinct` | pkg/parser/api/parser/api.go:133-134 | handlers pass exactly if no two of one name and one group stand in different places, whatever the groups are called |
| `Filter.HandlersListed` | pkg/parser/api/parser/api.go:114-143 | the keys checked are, cut at certain offsets, those of the services in order, and of each service that of every handler in order |
| `Filter.RoutesListed` | pkg/parser/api/parser/api.go:114-143 | the same for the routes |
| `Filter.NamesAre` | pkg/parser/api/parser/api.go:145-159 | the names checked are those of the declarations, one by one |
| `Filter.NodesDistinct` | pkg/parser/api/parser/api.go:88-112 | the values of imports, and the keys of an information block, pass exactly if no two of one text stand in different places |
| `Filter.RouteKeyExact` | pkg/parser/api/parser/api.go:135-139 | two routes have one key exactly if they have one text, comments included, under one prefix |
| `Filter.RoutesDistinct` | pkg/parser/api/parser/api.go:133-141 | routes pass exactly if no two of one text, comments included, under one prefix stand in different places |
| `Filter.ClashIsSame` | pkg/parser/api/parser/api.go:133-141 | if no comment needs squeezing, routes clash exactly if they are the same route in different places under one prefix, with the same comments and line breaks printed of them |
| `Filter.SameBaseNamePasses` | pkg/parser/api/parser/filter.go:17-26 | two declarations of one name in the same place of two files of one base name pass |
| `Filter.CheckNodes` | pkg/parser/api/parser/api.go:88-112 | checks the values of imports, or the keys of the information block |
| `Filter.CheckTypeStmt` | pkg/parser/api/parser/api.go:145-159 | checks the names of all declarations, single and grouped |
| `Filter.CheckServiceStmt` | pkg/parser/api/parser/api.go:114-143 | checks handlers and routes; the check for several service names never reports anything, since names are looked up under themselves |
| `Reading.ReadOnce` | pkg/parser/api/scanner/scanner.go:484-538 | a text that is words and comments, of which those to the end of a line are followed by a newline, is so in one way only |
| `Weaving.WrittenIs` | pkg/parser/api/ast/writer.go:363-402 | texts without tabs, blanks at their ends and blanks next to newlines are written as they are, one behind the other, with the line breaks between them |
| `RouteTrip.RouteTextIs` | pkg/parser/api/ast/servicestatement.go:395-421 | the text of a route is its words and comments, as they stand in it, and line breaks of those of them that are written as nothing |
| `RouteTrip.RouteTextExact` | pkg/parser/api/ast/servicestatement.go:395-421 | two routes whose comments need no squeezing have one text exactly if the same words, the same comments and the same line breaks are printed of them |
| `RouteWords.RouteWordsAre` | pkg/parser/api/ast/servicestatement.go:395-421 | the words printed of a route are its method, its path and its bodies with something in them |
| `RouteWords.PrintedAlikeIsSame` | pkg/parser/api/ast/servicestatement.go:395-540 | two such routes with one text are one route: the same method, path and bodies, but for bodies with nothing in them |
| `RouteRemarks.RouteSaysAll` | pkg/parser/api/ast/servicestatement.go:395-421 | all that is printed of a route, in order: the comments above the method and the method, the path, the bodies with something in them with the comments at their tokens, and the word before the response; without bodies the comments behind the path; and of no route those behind the method, or those above the parenthesis that ends its last body |
| `RouteRemarks.PrintedAlikeSayAlike` | pkg/parser/api/ast/servicestatement.go:395-421 | two routes whose comments need no squeezing and that have one text agree in all of that, comments included |
| `BareRoutes.BareText` | pkg/parser/api/ast/servicestatement.go:395-540 | the text of a route without comments depends on nothing but the route, wherever its tokens stand |
| `BareRoutes.BareRoutesExact` | pkg/parser/api/ast/servicestatement.go:395-540 | two routes without comments have one text exactly if they are one route |
| `Remarks.RemarksKeepApart` | pkg/parser/api/ast/servicestatement.go:395-421 | routes without bodies, with different comments at the end of their lines, have different texts |
| `Remarks.CommentedRoutesPass` | pkg/parser/api/parser/api.go:133-141 | a service that has one route twice, with different comments behind it, and passes the check |
| `Remarks.BlanksPrintedAlike` | pkg/parser/api/ast/writer.go:393-395 | routes for which squeezing is to be excluded: with different comments above them they are printed alike |
| `Remarks.CommentedNamesDiffer` | pkg/parser/api/parser/analyzer.go:292-296 | a service given twice, once with a comment behind its name, whose names do not agree |
| `Remarks.CommentedSyntaxDiffers` | pkg/parser/api/parser/api.go:238-249 | two files of one syntax, one with a comment behind it, that do not resolve |
| `Remarks.CommentedStructConverts` | pkg/parser/api/parser/analyzer.go:53-55 | a field of an empty struct converts with a comment behind its braces, and does not without |
| `Sources.FileIsSound` | pkg/parser/api/parser/parser.go:56-101 | of every text: the types that it declares are well formed and their comments are comments, handlers are identifiers, prefixes have no bracket, and the words of routes have neither blanks nor slashes that begin a comment, with comments as the scanner delivers them |
| `Sources.RouteIsShaped` | pkg/parser/api/parser/parser.go:219-283 | the same for a route, from its tokens |
| `Sources.ServiceIsSound` | pkg/parser/api/parser/parser.go:103-217 | the same for a service, from its tokens |
| `Sources.ProgramIsSound` | pkg/parser/api/parser/api.go:238-249 | the same for a program, in whatever order its files are merged |
| `Sources.ChecksOfSources` | pkg/parser/api/parser/api.go:114-143 | of a program whose files are what their texts declare, handlers pass the check exactly if no two of one name and group stand in different places, and routes exactly if no two of one text, comments included, under one prefix do |
| `Analysis.DeclaredIffChecked` | pkg/parser/api/parser/api.go:161-222 | the check finds nothing exactly if every name in use, in every declaration, is built in or declared |
| `Analysis.FaultlessIff` | pkg/parser/api/parser/analyzer.go:444-478 | nothing is found wrong with a program exactly if its imports, information keys, types, handlers and routes are unique, every type in use is declared, every declaration is a struct of convertible elements, every body names a known type and is no list in a request, and services have one name |
| `Analysis.FaultIsReal` | pkg/parser/api/parser/analyzer.go:444-478 | the fault that is reported is there, and none of those that are looked for before it |
| `Analysis.SourcesAccepted` | pkg/parser/api/parser/analyzer.go:444-478 | the same for a program given by the texts of its files, with the positions and the comments of their tokens: nothing is assumed of handlers, prefixes, routes or comments, and routes and names are compared with theirs |
| `Analysis.UndefinedBodyIsFound` | pkg/parser/api/parser/api.go:324-341 | a program that all checks accept and that cannot be converted: one route, whose body names an undeclared type |
| `Analysis.AlwaysFilled` | pkg/parser/api/parser/analyzer.go:342-365 | once the checks have passed and declarations convert, filling in the types cannot fail |
| `Analysis.Convert` | pkg/parser/api/parser/analyzer.go:134-162 | declarations that passed the checks: the types are rejected exactly if one does not convert, then the services exactly if they do not, for a reason that is there; else types and groups hold what `Conversion.TypesHold` and `Services.GroupsHold` say |
| `Analysis.Analyze` | pkg/parser/api/parser/analyzer.go:444-478 | a program is rejected as unresolvable exactly if it does not resolve; else for exactly the first fault of the declarations of exactly the files that its root reaches; and without one, types and groups hold what these declarations say, type by type and route by route |
| `SortedMap.PutLaws` | pkg/collection/sortedmap.go:56-66 | what is put is found, nothing else changes, keys stay distinct and in their order, an update keeps its place |
| `SortedMap.DeleteLaws` | pkg/collection/sortedmap.go:171-181 | what is deleted is not found, nothing else changes, the order is kept |
| `SortedMap.DeleteUndoesPut` | pkg/collection/sortedmap.go:171-181 | a new key that is put and deleted again leaves no trace |
| `SortedMap.PutAllCopies` | pkg/collection/sortedmap.go:189-195 | putting all entries of a list into the empty one gives the list |
| `SortedMap.PutAllLookup` | pkg/collection/sortedmap.go:183-187 | after all entries of a list are put, a key has the value of the last entry with it, or what it had if there is none |
| `SortedMap.PutAllOwn` | pkg/collection/sortedmap.go:183-187 | inserting a map into itself changes nothing |
| `SortedMap.ExpressionExact` | pkg/collection/sortedmap.go:31-54 | an expression is read as a key and a value exactly if it is how they are written and they are writable |
| `SortedMap.PairsAre` | pkg/collection/sortedmap.go:68-79 | of an even list, pair by pair, the first is the key and the second the value |
| `SortedMap.SortedMap.constructor` | pkg/collection/sortedmap.go:24-29 | a new map is empty |
| `SortedMap.SortedMap.KeysDistinct` | pkg/collection/sortedmap.go:19-22 | the keys in the list are distinct |
| `SortedMap.SortedMap.IndexIsLookup` | pkg/collection/sortedmap.go:81-87 | the index and the list agree for every key |
| `SortedMap.SortedMap.SetKV` | pkg/collection/sortedmap.go:56-66 | the association list gets the entry put; a known key keeps its cell, a new one gets a new cell at the end |
| `SortedMap.SortedMap.Set` | pkg/collection/sortedmap.go:68-79 | puts all pairs in order; refuses an odd list as a whole |
| `SortedMap.SortedMap.Get` | pkg/collection/sortedmap.go:81-87 | looks up |
| `SortedMap.SortedMap.Keys` | pkg/collection/sortedmap.go:131-139 | the keys in order |
| `SortedMap.SortedMap.Values` | pkg/collection/sortedmap.go:141-148 | the values in order: each is the one found for the key in its place |
| `SortedMap.SortedMap.Remove` | pkg/collection/sortedmap.go:171-181 | the association list loses the key, and what it had is returned |
| `SortedMap.SortedMap.SetFrom` | pkg/collection/sortedmap.go:183-187 | takes over one entry, and leaves the map it comes from as it is |
| `SortedMap.SortedMap.Insert` | pkg/collection/sortedmap.go:183-187 | takes over all entries, even of itself |
| `SortedMap.SortedMap.Copy` | pkg/collection/sortedmap.go:189-195 | the same entries in cells of its own |
| `SortedMap.SortedMap.Reset` | pkg/collection/sortedmap.go:205-210 | nothing left, in the list or in the index |
| `SortedMap.SortedMap.Format` | pkg/collection/sortedmap.go:197-203 | the entries as expressions, in order |
| `SortedMap.SortedMap.SetExpression` | pkg/collection/sortedmap.go:31-54 | puts the key and the value of a valid expression, and leaves the map as it is for any other text |
| `SortedMap.HasListedSpace` | util/stringx/string.go:124-142 | is one of the five listed white-space runes in the text? |
| `Env.ReadEnv` | pkg/env/env.go:131-147 | a new map holds what the lines of the file set, one after the other; lines that are no expression are skipped |
| `Env.LineIsSkipped` | pkg/env/env.go:131-147 | a line that is no expression can be taken out anywhere in the file without a change, so that reading goes on behind it |
| `Env.LastLineCounts` | pkg/env/env.go:131-147 | a key has the value of the last line that sets it, and is not there if no line does |
| `Env.SplitUndoesJoin` | pkg/env/env.go:138 | lines joined by newlines are split into the same lines |
| `Env.ReadIsWritable` | pkg/env/env.go:131-147 | whatever is read could have been written |
| `Env.EnvRoundTrip` | pkg/env/env.go:131-182 | a map is read back from its file, with its order, exactly if keys and values are strings, no key is empty or has an equals sign, and neither has listed white space; equals signs in values do no harm |
| `FileNaming.Split` | util/format/format.go:109-142 | the words of the content, cut at underscores and before capitals |
| `FileNaming.WordsAreWords` | util/format/format.go:109-142 | words are not empty, have no underscore and a capital at most at their head, and together are the content without underscores |
| `FileNaming.WordsAreThere` | util/format/format.go:109-142 | the words stand in the content in their order, and nothing but underscores between them |
| `FileNaming.FlagsApart` | util/format/format.go:43-59 | the two flags never overlap, so that all slices are in bounds |
| `FileNaming.StyleIsSpelling` | util/format/format.go:144-156 | a flag has a style exactly if it is spelled in it |
| `FileNaming.FileNamingFormat` | util/format/format.go:42-77 | a format is accepted exactly if it has the parts of one; the name begins with what stands before the first flag and ends with what stands behind the second, and between them are, by offsets, the words of the content with what stands between the flags between neighbours, each word character by character in its style |
| `FileNaming.DoFormat` | util/format/format.go:79-94 | the same for the parts of a format: the first word is in the first style, the others are in the second |
| `FileNaming.FormattedIsNamed` | util/format/format.go:79-107 | what that name is, told by offsets and character by character, holds of it for all contents and parts |
| `FileNaming.IndexOfIsFirst` | util/format/format.go:43-59 | a flag is found at the first place where it stands |
| `FileNaming.SnakeWords` | util/format/format.go:79-94 | the words of a snake-cased name are those of the content in lower case |
| `FileNaming.SnakeIsIdempotent` | util/format/format.go:79-94 | snake-casing twice is snake-casing once, for every content |
| `FileNaming.CamelKeepsWords` | util/format/format.go:79-107 | the `goZero` form has the words of the content exactly if every word but the first can be titled |
| `FileNaming.SnakeOfCamel` | util/format/format.go:79-107 | snake-casing the `goZero` form gives the snake-cased content exactly if every word but the first starts with a letter and has no letter behind a separator |
| `FileNaming.SnakeOfCamelCanDiffer` | util/format/format.go:79-107 | a content for which it does not: a digit behind an underscore |
| `CamelCase.CamelCase` | rpc/parser/parser.go:120-157 | the nested loops give, rune by rune, what the rune and its neighbours alone decide: exactly the underscores before lower-case letters are dropped, but for a first one, which becomes an `X`; the runes kept are in order those of the name, and one differs only if it is a lower-case letter that is first or behind an underscore or a digit, and then it is that letter in upper case |
| `CamelCase.LowerCase` | rpc/parser/parser.go:150-154 | the inner loop: takes over the lower-case letters that follow, as many as there are |
| `CamelCase.PiecesAreKept` | rpc/parser/parser.go:120-157 | that the kept runes are so, for every part of the name from its beginning on |
| `CamelCase.CamelUnderscores` | rpc/parser/parser.go:120-157 | the result has as many underscores as the name has that are neither first nor before a lower-case letter |
| `CamelCase.CamelIsNormal` | rpc/parser/parser.go:120-157 | the result has no lower-case letter first, after an underscore or after a digit, no underscore first, and is no longer than the name |
| `CamelCase.FixedIffNormal` | rpc/parser/parser.go:120-157 | exactly the names of that form are left as they are; so doing it twice is doing it once |
| `CamelCase.CamelKeepsLetters` | rpc/parser/parser.go:120-157 | but for underscores and case the name is kept, with an `X` before it if it starts with an underscore |

## Left out

- Parser.Parser.ParseStmt: statements are returned with their texts; the positions and the comments of their tokens are in the node table, which `Parse` states exactly, and `Files` puts the two together.
- Parser.Parser.ParsePathExpr: a route without a path makes the source index an empty list and panic (pkg/parser/api/parser/parser.go:443); here it is an error like the others.
- PrintTrip.PrintedTextParses: types with a tab or a form feed in a tag are left out, since column padding decides what becomes of them (`TabsPrintedAlike`); the column writer of the library is any function that replaces tabs by blanks or tabs.
- PrintTrip.PrintedTextRoundTrip: comments inside a printed type, other than those at the braces of an empty struct, are not printed here; the printer's `isChild` flags and the token nodes it overwrites only concern comments.
- Conversion.ConversionIsInjective: raw names are those of types without comments inside them, for the same reason; in the source they hold the comments too.
- Conversion.ConversionKeepsParts: the documentation and comments of members and routes are not converted, and neither are annotations and information blocks, which only copies them.
- Analysis.Convert: types, routes and groups stay in the order of their declarations; the source then sorts them stably by name, path and group (pkg/parser/api/parser/analyzer.go:145-158).
- RouteTrip.RouteTextExact: routes with a comment that has a tab, a blank at its end or one next to a newline are compared by their text (`Filter.RoutesDistinct`), but what the text tells of them is not stated; `BlanksPrintedAlike` shows that it does not tell all.
- Services.ServicesConvert: what becomes of a percent sign in a format is any function of the text.
- Imports.Api.constructor: what a file declares is given, and `Files.FileIn` says what that is for its text. A file with neither a statement nor a comment, on which the source panics, one with a service item without a handler, on which it panics when it checks services (pkg/parser/api/parser/api.go:134), and one with two syntax or information statements, which it refuses, all count as files that do not parse.
- Imports.Parse: where the import of a text leads, and the name that positions carry, are given for each file; joining and cleaning paths is not modelled.
- FileNaming.FileNamingFormat: only ASCII letters change case. The source looks for the flags in an upper-cased copy of the format and cuts the format itself at the byte offsets found there (util/format/format.go:43-59); where letters take more bytes in upper case than in lower case, it cuts at the wrong place or panics, and the model does not cover such formats.
- FileNaming.FlagsApart: the same holds of the offsets of the two flags.
- CamelCase.CamelCase: bytes are characters here, and only ASCII letters change case, as in the source.
- SortedMap.SortedMap.Set: keys that Go cannot hash, and keys that are not equal to themselves, are not modelled; the library's linked list is a sequence of cells.
- SortedMap.SortedMap.Insert: another map is required to share no cell with this one, which holds of all maps made by the constructor and by copying.
- Reading files from disk; a source is its text.
- Wording of error messages; the model counts errors, or names their cause.
- Whole-file formatting, and the printing of services and information blocks.
- `WriteEnv` and its checks of known keys and existing paths; only the line-joined form is modelled.
- The ANTLR-based parser, all code generators, templates, commands, database, docker and git code.
