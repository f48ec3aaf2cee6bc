# MSBuild binary-log path queries: the parser

This project models `Parser.Parse` from the MSBuild binary-log query library
(namespace `Microsoft.Build.Logging.Query.Parse`) and the tree it builds
(namespace `Microsoft.Build.Logging.Query.Ast`). A query is a path such as
`/Project[Id=1]/Target[Id=2]/Task[Id=3]//Message`. Each segment of the path has:

- a separator: `/` for a direct child, `//` for any descendant;
- a keyword: `project`, `target`, `task`, `message`, `warning` or `error`, in any letter case;
- on the three structural keywords only, an optional constraint list `[id=N, ...]`.

The parser's own source files are not part of this model. Its behaviour
is taken from the expectations in
`test/MSBuildBinLogQuery.Tests/Parse/ParserTests.cs`. Each of the 28
expressions that test expects to parse, and each of the 23 it expects to
throw `ParseException`, is proved about the model.

The model is three pure stages, each with a partner it is proved against:

- `Lexer.Tokenize` turns the text into tokens.
  - Its partner is `Unlex`, which prints tokens back to text; `LexUnlex` proves the round trip.
  - `UnlexPadded` prints them with any run of spaces after a comma and any leading zeros on a number; `TokenizeIff` proves that the texts the tokenizer accepts are exactly these writings of lexable tokens.
- `SegmentParser.ParseSegments` groups the tokens into segments: a separator, a keyword and, optionally, the `Id` constraints of a bracketed list.
  - Its partner is `SegmentsTokens`, the canonical tokens of a segment sequence.
  - `ParseSegmentsIff` proves that parsing succeeds exactly on those tokens, up to letter case.
- `PathParser.Build` nests the segments, each later one the child of the one before.
  - It fails unless the structural ranks Project < Target < Task strictly increase (ranks may be skipped).
  - It also fails unless a leaf (Message, Warning, Error) comes last, without brackets, and `//` stands only before a leaf.
  - Its partner is `Flatten`, the segments of a tree.
  - `BuildSucceedsIff`, `BuildSound` and `BuildFlatten` connect the two.

`PathParser.Parse` chains the three stages. A thrown `ParseException` is a
`Failure`. The main results about `Parse` are:

- it returns only well-formed trees;
- ASCII letter case never matters;
- every well-formed tree is the parse of its own rendering;
- `ParseCharacterization` states, without reference to how the stages compute, exactly which texts parse to a given tree.

Files:

- `wrappers.dfy`: `Option` and `Result`.
- `ast.dfy`: the tree and the node kinds its keywords name.
- `lexer.dfy`: tokens.
- `segments.dfy`: segments and constraint lists.
- `path.dfy`: building the tree, and `Parse`.
- `suite.dfy`: how the test suite writes expressions (keywords and keys in either case, optional space after commas), with general lemmas that turn a written expression into its parse or its rejection.
- `parser_tests.dfy`: one lemma per test expression.

## Model

| member | source | states |
|---|---|---|
| Ast.WellFormedDepth | test/MSBuildBinLogQuery.Tests/Parse/ParserTests.cs:80-84 | a well-formed path holds at most one node per rank, so at most four nodes (`/project/target/task/error` is the longest) |
| Lexer.NatToStringDigits | test/MSBuildBinLogQuery.Tests/Parse/ParserTests.cs:138-153 | the decimal numeral of a value is a non-empty digit run that reads back as that value |
| Lexer.LexUnlex | test/MSBuildBinLogQuery.Tests/Parse/ParserTests.cs:14-208 | tokenizing the text of any lexable token sequence gives back exactly those tokens (`//` read greedily, words and numbers maximal) |
| Lexer.TokenizeAppend | test/MSBuildBinLogQuery.Tests/Parse/ParserTests.cs:236-240 | text that reads as tokens `ts` followed by a remainder tokenizes as `ts` followed by the remainder's tokens, so a quote anywhere after them makes the whole tokenization fail |
| Lexer.TokenizeSound | test/MSBuildBinLogQuery.Tests/Parse/ParserTests.cs:116-130 | every text the tokenizer accepts is a padded writing of the lexable tokens it returns: token by token, each comma followed by some run of spaces (`, ` at :126) and each number with some leading zeros |
| Lexer.TokenizePadded | test/MSBuildBinLogQuery.Tests/Parse/ParserTests.cs:116-130 | every padded writing of a lexable token sequence, with any spaces after commas and any leading zeros, tokenizes back to exactly those tokens |
| Lexer.TokenizeIff | test/MSBuildBinLogQuery.Tests/Parse/ParserTests.cs:14-242 | a text tokenizes to `ts` if and only if `ts` is lexable and the text is one of its padded writings |
| Lexer.TokenizeLower | test/MSBuildBinLogQuery.Tests/Parse/ParserTests.cs:116-130 | lower-casing an expression lower-cases the words of its tokens and changes nothing else, failures included |
| SegmentParser.ParseBodyTokens | test/MSBuildBinLogQuery.Tests/Parse/ParserTests.cs:124-130 | the canonical tokens of any constraint list, `]` or `id = v` items separated by commas and closed by `]`, parse back to the same constraints in order, repeats kept, leaving the rest untouched |
| SegmentParser.ParseConstraintListSound | test/MSBuildBinLogQuery.Tests/Parse/ParserTests.cs:236-242 | whatever the constraint-list parser accepts is, up to letter case, the canonical tokens of the constraints it returns, followed by the unread rest |
| SegmentParser.ParseSegmentsLower | test/MSBuildBinLogQuery.Tests/Parse/ParserTests.cs:116-130 | the segment parser gives the same result on lower-cased tokens: keywords and the `id` key match in any case |
| SegmentParser.ParseSegmentsTokens | test/MSBuildBinLogQuery.Tests/Parse/ParserTests.cs:14-208 | the canonical tokens of any segment sequence parse back to that sequence |
| SegmentParser.ParseSegmentsSound | test/MSBuildBinLogQuery.Tests/Parse/ParserTests.cs:220-225 | tokens the segment parser accepts are, up to letter case, the canonical tokens of the segments it returns; anything else (no leading separator, a separator without keyword) fails |
| SegmentParser.ParseSegmentsAppend | test/MSBuildBinLogQuery.Tests/Parse/ParserTests.cs:198-208 | the canonical tokens of segments followed by tokens that start a segment parse as those segments followed by the parse of the rest, and fail exactly when the rest fails |
| SegmentParser.ParseSegmentsIff | test/MSBuildBinLogQuery.Tests/Parse/ParserTests.cs:220-242 | tokens parse to segments `segs` if and only if, lower-cased, they are the canonical tokens of `segs` |
| PathParser.BuildSucceedsIff | test/MSBuildBinLogQuery.Tests/Parse/ParserTests.cs:226-235 | building a tree succeeds exactly when ranks strictly increase, only the last segment is a leaf, a leaf has no brackets and `//` comes only before a leaf |
| PathParser.BuildSound | test/MSBuildBinLogQuery.Tests/Parse/ParserTests.cs:50-108 | a built tree is well formed and flattens back to the segments it came from, each later segment the child of the one before |
| PathParser.BuildFlatten | test/MSBuildBinLogQuery.Tests/Parse/ParserTests.cs:110-114 | every well-formed tree is built back from its own segments, with or without `[]` on nodes that have no constraints |
| PathParser.FlattenInjective | test/MSBuildBinLogQuery.Tests/Parse/ParserTests.cs:198-208 | different trees have different segment sequences |
| PathParser.ParseWellFormed | test/MSBuildBinLogQuery.Tests/Parse/ParserTests.cs:68-84 | every tree `Parse` returns is well formed: strictly increasing ranks, a leaf only at the end |
| PathParser.ParseIgnoresCase | test/MSBuildBinLogQuery.Tests/Parse/ParserTests.cs:116-130 | an expression parses exactly as its lower-cased form |
| PathParser.ParseRender | test/MSBuildBinLogQuery.Tests/Parse/ParserTests.cs:132-136 | every well-formed tree is the parse of its canonical text, whether empty lists are written `[]` or omitted and whether commas are followed by a space |
| PathParser.ParseCharacterization | test/MSBuildBinLogQuery.Tests/Parse/ParserTests.cs:14-242 | an expression parses to `n` if and only if it is a padded writing of lexable tokens that are, up to case, the canonical tokens of segments that obey the path rules and flatten to `n` |
| SuiteText.BareWritten | test/MSBuildBinLogQuery.Tests/Parse/ParserTests.cs:14-108 | a separator and a keyword in lower or capital case read as the tokens of one segment without constraints |
| SuiteText.BracketedWritten | test/MSBuildBinLogQuery.Tests/Parse/ParserTests.cs:116-208 | a separator, a keyword and a constraint list with keys `id`, `Id` or `ID`, with or without a space after commas, read as the tokens of one segment with those constraints |
| SuiteText.Accepted | test/MSBuildBinLogQuery.Tests/Parse/ParserTests.cs:14-208 | an expression assembled from written segments parses to the tree those segments flatten to, for any well-formed tree |
| SuiteText.Rejected | test/MSBuildBinLogQuery.Tests/Parse/ParserTests.cs:220-235 | an expression assembled from written segments fails when it has no segment or when a segment breaks a path rule |
| SuiteText.SegmentsRejected | test/MSBuildBinLogQuery.Tests/Parse/ParserTests.cs:221-225 | text that reads as tokens the segment parser refuses fails to parse |
| SuiteText.BodyRejected | test/MSBuildBinLogQuery.Tests/Parse/ParserTests.cs:237-242 | any run of written segments, then `/`, a keyword, `[` and lexable tokens the constraint-list parser refuses: the expression fails to parse |
| SuiteText.QuoteRejected | test/MSBuildBinLogQuery.Tests/Parse/ParserTests.cs:236-240 | the text of any lexable tokens followed by a character no token starts with (a quote after `Id=`), where that character does not run into the last token: the expression fails to parse |
| ParserTests.Accepts16 | test/MSBuildBinLogQuery.Tests/Parse/ParserTests.cs:14-18 | `/message` parses to `Message(Direct)` |
| ParserTests.Accepts22 | test/MSBuildBinLogQuery.Tests/Parse/ParserTests.cs:20-24 | `/warning` parses to `Warning(Direct)` |
| ParserTests.Accepts28 | test/MSBuildBinLogQuery.Tests/Parse/ParserTests.cs:26-30 | `/error` parses to `Error(Direct)` |
| ParserTests.Accepts34 | test/MSBuildBinLogQuery.Tests/Parse/ParserTests.cs:32-36 | `/task` parses to `Task(None, [])` |
| ParserTests.Accepts40 | test/MSBuildBinLogQuery.Tests/Parse/ParserTests.cs:38-42 | `/target` parses to `Target(None, [])` |
| ParserTests.Accepts46 | test/MSBuildBinLogQuery.Tests/Parse/ParserTests.cs:44-48 | `/project` parses to `Project(None, [])` |
| ParserTests.Accepts52 | test/MSBuildBinLogQuery.Tests/Parse/ParserTests.cs:50-54 | `/task/message` parses to `Task(Some(Message(Direct)), [])` |
| ParserTests.Accepts58 | test/MSBuildBinLogQuery.Tests/Parse/ParserTests.cs:56-60 | `/target/warning` parses to `Target(Some(Warning(Direct)), [])` |
| ParserTests.Accepts64 | test/MSBuildBinLogQuery.Tests/Parse/ParserTests.cs:62-66 | `/project/error` parses to `Project(Some(Error(Direct)), [])` |
| ParserTests.Accepts70 | test/MSBuildBinLogQuery.Tests/Parse/ParserTests.cs:68-72 | `/target/task/message` parses to `Target(Some(Task(Some(Message(Direct)), [])), [])` |
| ParserTests.Accepts76 | test/MSBuildBinLogQuery.Tests/Parse/ParserTests.cs:74-78 | `/project/task/warning` parses to `Project(Some(Task(Some(Warning(Direct)), [])), [])` |
| ParserTests.Accepts82 | test/MSBuildBinLogQuery.Tests/Parse/ParserTests.cs:80-84 | `/project/target/task/error` parses to `Project(Some(Target(Some(Task(Some(Error(Direct)), [])), [])), [])` |
| ParserTests.Accepts88 | test/MSBuildBinLogQuery.Tests/Parse/ParserTests.cs:86-90 | `//message` parses to `Message(All)` |
| ParserTests.Accepts94 | test/MSBuildBinLogQuery.Tests/Parse/ParserTests.cs:92-96 | `/project//warning` parses to `Project(Some(Warning(All)), [])` |
| ParserTests.Accepts100 | test/MSBuildBinLogQuery.Tests/Parse/ParserTests.cs:98-102 | `/target/task//error` parses to `Target(Some(Task(Some(Error(All)), [])), [])` |
| ParserTests.Accepts106 | test/MSBuildBinLogQuery.Tests/Parse/ParserTests.cs:104-108 | `/project/task//message` parses to `Project(Some(Task(Some(Message(All)), [])), [])` |
| ParserTests.Accepts112 | test/MSBuildBinLogQuery.Tests/Parse/ParserTests.cs:110-114 | `/Task[]` parses to `Task(None, [])` |
| ParserTests.Accepts118 | test/MSBuildBinLogQuery.Tests/Parse/ParserTests.cs:116-122 | `/Task[ID=341]/Message` parses to `Task(Some(Message(Direct)), [Id(341)])` |
| ParserTests.Accepts126 | test/MSBuildBinLogQuery.Tests/Parse/ParserTests.cs:124-130 | `/Project/Task[id=1, Id=2, ID=3]//Warning` parses to `Project(Some(Task(Some(Warning(All)), [Id(1), Id(2), Id(3)])), [])` |
| ParserTests.Accepts134 | test/MSBuildBinLogQuery.Tests/Parse/ParserTests.cs:132-136 | `/Target[]` parses to `Target(None, [])` |
| ParserTests.Accepts140 | test/MSBuildBinLogQuery.Tests/Parse/ParserTests.cs:138-144 | `/Target[Id=153]` parses to `Target(None, [Id(153)])` |
| ParserTests.Accepts148 | test/MSBuildBinLogQuery.Tests/Parse/ParserTests.cs:146-153 | `/Project/Target[Id=980321]//Error` parses to `Project(Some(Target(Some(Error(All)), [Id(980321)])), [])` |
| ParserTests.Accepts157 | test/MSBuildBinLogQuery.Tests/Parse/ParserTests.cs:155-163 | `/Target[Id=9]/Task[ID=81]/Warning` parses to `Target(Some(Task(Some(Warning(Direct)), [Id(81)])), [Id(9)])` |
| ParserTests.Accepts167 | test/MSBuildBinLogQuery.Tests/Parse/ParserTests.cs:165-169 | `/Project[]` parses to `Project(None, [])` |
| ParserTests.Accepts173 | test/MSBuildBinLogQuery.Tests/Parse/ParserTests.cs:171-177 | `/Project[Id=536]` parses to `Project(None, [Id(536)])` |
| ParserTests.Accepts181 | test/MSBuildBinLogQuery.Tests/Parse/ParserTests.cs:179-185 | `/Project[ID=448]/Error` parses to `Project(Some(Error(Direct)), [Id(448)])` |
| ParserTests.Accepts189 | test/MSBuildBinLogQuery.Tests/Parse/ParserTests.cs:187-196 | `/Project[Id=121]/Task[Id=421]` parses to `Project(Some(Task(None, [Id(421)])), [Id(121)])` |
| ParserTests.Accepts200 | test/MSBuildBinLogQuery.Tests/Parse/ParserTests.cs:198-208 | `/Project[Id=1]/Target[Id=2]/Task[Id=3]//Message` parses to `Project(Some(Target(Some(Task(Some(Message(All)), [Id(3)])), [Id(2)])), [Id(1)])` |
| ParserTests.Rejects220 | test/MSBuildBinLogQuery.Tests/Parse/ParserTests.cs:220 | the empty expression is rejected (`Parse` gives `Failure`) |
| ParserTests.Rejects221 | test/MSBuildBinLogQuery.Tests/Parse/ParserTests.cs:221 | `/` is rejected (`Parse` gives `Failure`) |
| ParserTests.Rejects222 | test/MSBuildBinLogQuery.Tests/Parse/ParserTests.cs:222 | `//` is rejected (`Parse` gives `Failure`) |
| ParserTests.Rejects223 | test/MSBuildBinLogQuery.Tests/Parse/ParserTests.cs:223 | `message` is rejected (`Parse` gives `Failure`) |
| ParserTests.Rejects224 | test/MSBuildBinLogQuery.Tests/Parse/ParserTests.cs:224 | `project/message` is rejected (`Parse` gives `Failure`) |
| ParserTests.Rejects225 | test/MSBuildBinLogQuery.Tests/Parse/ParserTests.cs:225 | `/warning/` is rejected (`Parse` gives `Failure`) |
| ParserTests.Rejects226 | test/MSBuildBinLogQuery.Tests/Parse/ParserTests.cs:226 | `/message/project` is rejected (`Parse` gives `Failure`) |
| ParserTests.Rejects227 | test/MSBuildBinLogQuery.Tests/Parse/ParserTests.cs:227 | `/task/task` is rejected (`Parse` gives `Failure`) |
| ParserTests.Rejects228 | test/MSBuildBinLogQuery.Tests/Parse/ParserTests.cs:228 | `/project/target/target/task/error` is rejected (`Parse` gives `Failure`) |
| ParserTests.Rejects229 | test/MSBuildBinLogQuery.Tests/Parse/ParserTests.cs:229 | `/project//target` is rejected (`Parse` gives `Failure`) |
| ParserTests.Rejects230 | test/MSBuildBinLogQuery.Tests/Parse/ParserTests.cs:230 | `//message/target` is rejected (`Parse` gives `Failure`) |
| ParserTests.Rejects231 | test/MSBuildBinLogQuery.Tests/Parse/ParserTests.cs:231 | `/project/target/task//warning/task` is rejected (`Parse` gives `Failure`) |
| ParserTests.Rejects232 | test/MSBuildBinLogQuery.Tests/Parse/ParserTests.cs:232 | `/message/message` is rejected (`Parse` gives `Failure`) |
| ParserTests.Rejects233 | test/MSBuildBinLogQuery.Tests/Parse/ParserTests.cs:233 | `/warning//error` is rejected (`Parse` gives `Failure`) |
| ParserTests.Rejects234 | test/MSBuildBinLogQuery.Tests/Parse/ParserTests.cs:234 | `//error/message` is rejected (`Parse` gives `Failure`) |
| ParserTests.Rejects235 | test/MSBuildBinLogQuery.Tests/Parse/ParserTests.cs:235 | `//warning//message` is rejected (`Parse` gives `Failure`) |
| ParserTests.Rejects236 | test/MSBuildBinLogQuery.Tests/Parse/ParserTests.cs:236 | `/Task[ID="123"]` is rejected (`Parse` gives `Failure`) |
| ParserTests.Rejects237 | test/MSBuildBinLogQuery.Tests/Parse/ParserTests.cs:237 | `/Task[ID==123]` is rejected (`Parse` gives `Failure`) |
| ParserTests.Rejects238 | test/MSBuildBinLogQuery.Tests/Parse/ParserTests.cs:238 | `/Task[ID]` is rejected (`Parse` gives `Failure`) |
| ParserTests.Rejects239 | test/MSBuildBinLogQuery.Tests/Parse/ParserTests.cs:239 | `/Task[ID=123` is rejected (`Parse` gives `Failure`) |
| ParserTests.Rejects240 | test/MSBuildBinLogQuery.Tests/Parse/ParserTests.cs:240 | `/Target[Id="999"]/Task` is rejected (`Parse` gives `Failure`) |
| ParserTests.Rejects241 | test/MSBuildBinLogQuery.Tests/Parse/ParserTests.cs:241 | `/Target[Id,Id=123]` is rejected (`Parse` gives `Failure`) |
| ParserTests.Rejects242 | test/MSBuildBinLogQuery.Tests/Parse/ParserTests.cs:242 | `/Project[[Id=1]]` is rejected (`Parse` gives `Failure`) |
| ParserTests.WrittenTree94Differs | test/MSBuildBinLogQuery.Tests/Parse/ParserTests.cs:92-96 | the tree written for `/project//warning` is not its parse: it has a message node under the project |
| ParserTests.WrittenTree100Differs | test/MSBuildBinLogQuery.Tests/Parse/ParserTests.cs:98-102 | the tree written for `/target/task//error` is not its parse: it has a message node under the task |
| ParserTests.WrittenTree126Differs | test/MSBuildBinLogQuery.Tests/Parse/ParserTests.cs:124-130 | the tree written for `/Project/Task[id=1, Id=2, ID=3]//Warning` is not its parse: it has a message node under the task |
| ParserTests.WrittenTree181Differs | test/MSBuildBinLogQuery.Tests/Parse/ParserTests.cs:179-185 | the tree written for `/Project[ID=448]/Error` is not its parse: it has a message node under the project |
| ParserTests.WrittenTree189Differs | test/MSBuildBinLogQuery.Tests/Parse/ParserTests.cs:187-196 | the tree written for `/Project[Id=121]/Task[Id=421]` is not its parse: it has a target node inserted between the project and the task |

## Left out

- The parser's own source files are not part of this model. The stages and their rules are reconstructed from the test expectations, so the model states the behaviour those fix, not the parser's internal structure.
- Error messages and error kinds: the tests only require that `ParseException` is thrown, so `Failure` carries no payload.
- Whitespace anywhere other than directly after a comma in a constraint list is a lexical failure in the model. No test expression covers it.
- Brackets on a leaf (`/message[]`) fail in the model. No test expression covers it, and what the parser does there is unknown.
- Lexer.Lower / Lexer.IsLetter: letters are `a`-`z` and `A`-`Z` only, and case folding is ASCII lower-casing. Any other letter is a lexical failure, and `ParseIgnoresCase` is about ASCII case only. How the original compares keywords (ordinal, invariant or culture-sensitive) is not part of this model, so non-ASCII folding, such as the Kelvin sign or a Turkish-culture `I`, is not modelled.
- Ast.Constraint: id values are unbounded naturals. The original's 32-bit integer range, and what it does with a numeral beyond it, is not modelled.
- The query evaluator that runs a parsed tree against the events of a log: it reads log data and is outside the parser.
- `src/dotnet-uninstall/Shared/Filterers/AllOptionFilterer.cs` belongs to another tool in the repository. It passes its input through unchanged, and nothing in the parser uses it.
- The xUnit and FluentAssertions plumbing of the test class: each expectation becomes a lemma about `Parse`, not a test run.
- The five expected trees listed under Findings are not encoded as parser behaviour.

## Findings

The test suite is the only description of the parser in this model, and five of its expected trees disagree with the rest of it. The model parses these expressions the way the rest of the suite requires. For each one, a lemma shows that the tree as written is not that parse. The last row has low confidence: the node classes are not part of this model, and a `ProjectNode` constructor taking a task could wrap it in a target node, which would make :74-78 and :187-196 agree.

| source | as written | input that shows it | evidently intended | confidence | as-written member | corrected member |
|---|---|---|---|---|---|---|
| test/MSBuildBinLogQuery.Tests/Parse/ParserTests.cs:92-96 | the expected tree has a message node under the project | `/project//warning` | a warning node on the all axis, as the `warning` keyword gives at :20-24 | medium, not executed | ParserTests.WrittenTree94Differs | ParserTests.Accepts94 |
| test/MSBuildBinLogQuery.Tests/Parse/ParserTests.cs:98-102 | the expected tree has a message node under the task | `/target/task//error` | an error node on the all axis, as at :26-30 | medium, not executed | ParserTests.WrittenTree100Differs | ParserTests.Accepts100 |
| test/MSBuildBinLogQuery.Tests/Parse/ParserTests.cs:124-130 | the expected tree has a message node under the task | `/Project/Task[id=1, Id=2, ID=3]//Warning` | a warning node on the all axis | medium, not executed | ParserTests.WrittenTree126Differs | ParserTests.Accepts126 |
| test/MSBuildBinLogQuery.Tests/Parse/ParserTests.cs:179-185 | the expected tree has a message node under the project | `/Project[ID=448]/Error` | an error node on the direct axis | medium, not executed | ParserTests.WrittenTree181Differs | ParserTests.Accepts181 |
| test/MSBuildBinLogQuery.Tests/Parse/ParserTests.cs:187-196 | the expected tree has a target node inserted between the project and the task | `/Project[Id=121]/Task[Id=421]` | the task directly under the project, as `/project/task/warning` gives at :74-78 | low, not executed | ParserTests.WrittenTree189Differs | ParserTests.Accepts189 |
