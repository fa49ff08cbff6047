# pocketcaddy: a verified model

pocketcaddy serves named SQL queries over HTTP. A `.sql` file declares a query and its parameters
in directive comments; a request supplies values and asks for filters, an order and a page; the
statement is rewritten, wrapped and run; its rows leave as JSON lines. This project models that way
from the file to the last byte in Dafny and proves what the repository promises about it.

Text is a sequence of code points. Scanners, lexers, visitors and writers that move a position or
fill a buffer in the Go code are classes with the same fields; loops are methods with loops. Each
is proved against a function of its input or old state, and the theorems are about those functions,
so they hold of the loops too.

| file | what it holds |
|---|---|
| `Text`, `Values` | white space, quoting, 64-bit integers; dynamic values, types, coercion |
| `FilterScan`, `Filters`, `FilterCases` | the filter-spec scanner and list parser; filters, order and select terms; case by case |
| `Directive`, `Params`, `QueryFile` | the directive lexer, the `@param` parser, the file parser |
| `Reprint`, `FileCases` | files read, printed and read again; exactly which files are accepted as what |
| `Syntax`, `Binding`, `Expansion`, `Intended` | an expression tree with three-valued meaning; the bind rewrite; what it preserves; what the author and the client meant |
| `Wrapper`, `Reader`, `Shaping` | the wrapping text; a recursive-descent reader of it; what filters mean |
| `Body`, `Input`, `Asked` | the JSON body and the query string; what an accepted request holds |
| `Printer`, `Pipeline` | the text of statements and its placeholders; everything together down to the text sent |
| `Probe` | the values of the startup probe |
| `Http`, `Stream`, `Respond`, `Paging` | the connection and buffer; the row loop; one response; whole paging runs |

The main results:

- **Binding.** For every query that binds, the statement sent with its arguments has on every row
  the three-valued result of the authored one in which each `:name` is the value supplied, else the
  default, else NULL or the empty list (`BoundMeans`, `BoundByName`).
- **Rewriting.** The rewritten statement, its `?` taking the arguments left to right, has on every
  row the three-valued result the authored one has under the named values
  (`ExpansionPreservesMeaning`), and it is the spliced statement exactly when no list was authored
  directly inside a list (`RewriteSplicesIff`). An empty list never adds a row under any mixture of
  AND, OR, NOT and IN (`EmptyListNeverWidens`), and in positive position keeps exactly the rows of
  empty-set membership (`EmptyListExactWhenPositive`).
- **Wrapping.** Text and arguments determine the inner statement, select list, filters, order,
  limit and offset, whatever the inner statement contains (`WrapperReadsBack`). The text sent has,
  outside quotes, exactly one placeholder for each argument, and with every placeholder replaced by
  its own argument it is the rewritten statement with its holes filled, wrapped; that is the
  authored one with its values spliced in exactly when no list was authored directly inside a list
  (`PlaceholdersAligned`).
- **Parsing.** Filters, order and select options, quoted lists, `@param` lines and whole query
  files are read back from what was printed. Every filter, option and `@param` line that parses
  prints to text that parses to it; a whole file does exactly when no line of its statement ends in
  a carriage return (`QueryReprint`).
- **Requests.** A request is accepted exactly when each of its keys is (`AcceptedIff`), and then
  holds exactly what they ask for (`FiltersAsked`, `LimitAsked`, `OffsetAsked`, `ShapeAsked`,
  `InputValues`); what is sent reads as that request over the printed statement, or is that
  statement if nothing was asked for (`BuiltIsAsked`). The order of keys does not change the answer
  (`SameAnswer`), and what can still fail after a request was accepted is known exactly
  (`AcceptedBinds`).
- **Streaming and paging.** What a run has delivered, unless a write failed, is known to the byte
  (`StreamQuery`); a second status is attempted in exactly one situation (`Serve`); a client that
  follows `Content-Range` collects every row once and in order, in ceil(n / page) + 1 requests
  (`CollectByRange`), and one that goes on after partial responses, broken off anywhere in a page
  or right after it, loses exactly the rows that were counted while still in the buffer
  (`CollectThroughFaults`).

## Where the code and its prose differ

The model follows the code; each difference is stated exactly.

- An optional parameter without a clause whose description starts with `required`, `=` or an
  unterminated quote is read as having that clause, or refused (parse.go:247-269).
  `Params.ParamRoundTrip` gives the condition as an if-and-only-if,
  `Params.DescriptionTakenForDefault` a declaration that fails.
- Lines are read without one carriage return before the newline (parse.go:134-142), so a line that
  ends in two keeps one, and loses it when the query is printed and read again.
  `Reprint.QueryReprint` gives the condition, `Reprint.ReturnLost` files that fail.
- `flattenExprList` splices every list directly inside a list, authored ones included
  (exec.go:160-170). `Expansion.NestingChangesMeaning` has a statement it changes.
- `NOT IN` over an empty list keeps no row, where set membership would keep rows
  (exec.go:139-145; README.md:187-189 promises only that the result is not widened).
- README.md:187-189 says that an empty list stays empty rather than widening. That holds wherever
  empty list parameters stand in IN lists under AND, OR, NOT and comparisons
  (`Expansion.EmptyListNeverWidens`). A NULL test of an IN widens exactly on the rows that are not
  members, if an empty parameter is among the items (`Expansion.NullTestWidensIff`); with nothing
  else in the list, `(x IN (:ids)) IS NULL` keeps every row (`Expansion.NullTestWidens`).
- The `Content-Range` of a partial response counts encoded rows, not those "that made it out"
  (README.md:364-365). The two agree exactly when nothing is waiting in the buffer, that is when
  the last row ended a batch of 256 or was too long to wait (`Respond.PartialRange`,
  `Stream.CountedIsDelivered`). `Respond.NothingDelivered` is a response that counts one row and
  delivers none, also if that row was the last; `Paging.LastRowMissed` is a client that never gets
  it.
- The error record of a partial response is meant as a line of its own (handler.go:99-103,
  README.md:350-352). It is one exactly when the delivered bytes do not end inside a row
  (`Stream.TornIs`); `Stream.SecondRowTorn` has two rows after which they do.
- Stopping at the first page shorter than asked for (README.md:257-259) misses rows exactly when
  the row cap is positive, below the limit and below the number of rows (`Paging.CollectUntilShort`).
- The trailer has no unit and writes `*/*` for an empty page, which is looser than section 4.2 of
  RFC 7233, named at handler.go:329. The model keeps the code's format.
- `fail` is only safe before any row has been written (handler.go:341-343). It is reached later
  exactly when the first row's line overflows the buffer and the connection does not take it
  (`Respond.Serve`); `Respond.SecondStatus` is the shortest case.

## Model

| member | source | states |
|---|---|---|
| Text.TrimSplits | parse.go:193-197 | trimming removes leading and trailing white space and nothing else, and leaves text that is trimmed |
| Text.SplitJoin | values.go:255-260 | splitting at a separator undoes joining of parts that do not contain it |
| Text.ScanQuotedEscape | directive.go:117-138 | any text, quoted with doubled quotes, scans back to itself and leaves the remainder untouched |
| Text.ScanQuotedSound | directive.go:117-138 | whatever the scanner accepts is the doubled-quote spelling of its result, and it stops at the first quote that is not doubled |
| Text.ParseFormatInt | values.go:13-18 | every 64-bit integer is read back from its decimal text |
| FilterScan.QuotedIsOddParity | filter.go:63-76 | the automaton is inside quotes exactly after an odd number of quotes, so doubled quotes need no lookahead |
| FilterScan.FirstSeparator | filter.go:36-60 | the first dot read outside quotes at paren depth zero, and no earlier position is one |
| FilterCases.DepthIsRise | filter.go:36-60 | the depth is the highest excess of opening over closing parens outside quotes from anywhere before, so a closing paren that closes nothing counts for nothing |
| FilterCases.SeparatorIs | filter.go:33-60 | a dot separates exactly after an even number of quotes and with no paren open |
| FilterScan.FilterScanner.NextSegment | filter.go:36-60 | the lookahead scanner stops exactly where the simple automaton says, also with unterminated quotes and unbalanced parens; segment, dot and remainder rebuild what was unconsumed |
| FilterScan.FilterScanner.SkipQuotedItem | filter.go:63-76 | a quoted run returns to the same depth outside quotes or reaches the end, and holds no separator |
| FilterScan.PiecesRejoin | filter.go:93-131 | the pieces cut at commas outside quotes, joined again, are the interior of the list |
| FilterScan.ItemCount | filter.go:93-131 | a list has one item more than commas at even quote parity, hence at least one |
| FilterScan.ParseList | filter.go:80-132 | the single-pass parser is split-then-unquote, with the same failures |
| FilterScan.ScanItems | filter.go:93-131 | the item loop yields the unquoted pieces and its closing guard always holds |
| FilterScan.QuotedRun | filter.go:101-116 | the inner loop stays on the split-then-unquote reading of the whole interior and ends inside quotes only at its end |
| FilterScan.ListRoundTrip | filter.go:80-132 | every non-empty list of arbitrary texts, quoted and printed, parses back: commas, quotes, parens, dots and spaces included |
| FilterCases.PlainItems | filter.go:93-131 | without quotes the items are the parts between commas, spaces included |
| FilterCases.ListAcceptedIff | filter.go:80-91 | a list is accepted exactly if it is text in parens, trimmed, that is not blank inside |
| Filters.ParseFilter | values.go:173-236 | the parser over the scanner object yields the filter, or the failure, that the spec denotes |
| Filters.ParsePredicate | values.go:202-235 | each operator fills in the record as the spec's meaning says and keeps column and negation |
| Filters.ParsedWellFormed | values.go:173-236 | every parsed filter keeps its column, has a valid and known column, and is a NULL test, a non-empty IN list of texts or a comparison with a text or boolean; never a NULL value |
| Filters.FilterRoundTrip | values.go:173-236 | every well-formed filter is the reading of its own spec, for every operator, negation and value |
| Filters.BareIsEq | values.go:183-190 | a spec without a top-level dot means the same as `eq.` followed by it |
| Filters.IlikeIsLike | values.go:131-140 | `ilike` and `like` are the same operator, negated or not |
| Filters.ReprintStable | values.go:173-236 | whatever parses prints to a spec that parses to the same filter |
| FilterCases.ColumnRefused | values.go:242-250 | a column is refused for its form, then for being unknown, whatever the spec |
| FilterCases.KnownWords | values.go:131-140 | exactly the ten operator words are known |
| FilterCases.ConstantIs | values.go:203-216 | `is` takes null, true and false, in any case, and nothing else |
| FilterCases.SpecRefusedIff | values.go:200-235 | a spec on a known column is refused exactly for an unknown operator, a word that `is` does not take or something that is no list, with the error of each |
| FilterCases.DanglingRefused | values.go:192-199 | `not.` before something without an operator is refused |
| Filters.ParseOrder | values.go:253-291 | the term loop yields the terms denoted by the comma-separated parts, blank ones skipped, or the first failure |
| Filters.ParseOrderTerm | values.go:260-288 | column check, then modifiers from left to right, the last of a kind winning |
| Filters.OrderRoundTrip | values.go:253-291 | any non-empty list of order terms is read back from its printed form |
| Filters.ParseSelect | values.go:294-330 | the loop renders exactly the denoted terms and refuses a list without any |
| Filters.ParseSelectTerm | values.go:301-323 | one item renders as the term it denotes, alias included, or fails with that term's failure |
| Filters.OrderReprint | values.go:253-291 | whatever parses as an `order` option, an empty one included, prints to one that parses to the same terms |
| FilterCases.OrderAlone | values.go:260-261 | a column alone is ascending, with no word on NULL |
| FilterCases.LastModWins | values.go:269-287 | each modifier, in any case, overrides the earlier ones of its kind and nothing else; any other word is refused |
| FilterCases.OrderRefused | values.go:262-286 | a term is refused for its column, or else for a modifier |
| FilterCases.BlankSkipped | values.go:255-259 | blank parts of an order or select option do not count |
| Filters.SelectRoundTrip | values.go:294-330 | any non-empty list of select terms is read back from its printed form, rendered |
| Filters.SelectReprint | values.go:294-330 | whatever parses as a `select` option prints to one that parses to the same |
| FilterCases.SelectRefused | values.go:301-312 | an item is refused for its alias, or else for its column |
| FilterCases.SelectNothing | values.go:325-328 | an option without any item is refused |
| Directive.Lexer.SkipSpace | directive.go:67-75 | skips exactly the leading white space |
| Directive.Lexer.Next | directive.go:78-114 | the position-based lexer returns the token the remaining text starts with and leaves exactly the text after it |
| Directive.Lexer.LexWord | directive.go:104-113 | a word runs to the first space or structural character |
| Directive.Lexer.LexString | directive.go:117-138 | the in-place scan of a quoted value agrees with the recursive reading, unterminated quotes included |
| Directive.Lexer.Peek | directive.go:141-146 | the next token, with the position unchanged |
| Directive.LexQuote | directive.go:117-138 | a value quoted with either quote lexes to itself, whatever it contains |
| Directive.LexRebuilds | directive.go:78-138 | tokens lose nothing: white space, the token as written and the remainder rebuild the text, words being maximal |
| Params.ParseParam | parse.go:217-271 | the parser with peeks yields the declaration the text denotes, or its first failure |
| Params.ParseClause | parse.go:246-270 | `required`, a default or neither, and the rest as description |
| Params.ParseDefault | parse.go:279-351 | the default of the declared type, and the position just past it |
| Params.ParseListDefault | parse.go:294-350 | a list default with or without parens |
| Params.ParseItems | parse.go:305-339 | the item loop collects the items the text denotes and stops where they end |
| Params.TypeNameRead | parse.go:353-371 | every type is read from its name |
| FileCases.TypeSpellings | parse.go:353-371 | each type has exactly its spellings, in any case |
| FileCases.UntypedIsText | parse.go:230-244 | a parameter without a type is text |
| FileCases.WordDefault | parse.go:280-292 | a default may be a bare word, and is what the word converts to |
| FileCases.WordListDefault | parse.go:305-339 | a list default without parens is its words between commas |
| FileCases.WordListInParens | parse.go:294-350 | and so is one with parens |
| FileCases.NoDefault | parse.go:285-287 | after `=` nothing is the empty list, or refused for a scalar |
| FileCases.NameRefused | parse.go:224-229 | a declaration without a name, or with one that is no identifier, is refused |
| Params.DefaultTyped | parse.go:279-351 | a default is a list exactly for list types, with items of the element type |
| Params.ParamRoundTrip | parse.go:217-271 | a declaration is read back exactly if and only if it has a clause or its description cannot be mistaken for one; defaults and descriptions are arbitrary |
| Params.DescriptionTakenForDefault | parse.go:247-269 | an optional parameter described as `= 5` is not read back |
| Params.ParsedParam | parse.go:217-271 | every declaration that parses is well formed and prints to text that parses to it |
| QueryFile.ReturnDropped | parse.go:134-138 | a line ended by carriage return and newline is the same line |
| QueryFile.UnlinesScan | parse.go:137-143 | lines scanned and written back with newlines are the text exactly when no line ends in a carriage return, and otherwise are shorter |
| QueryFile.SplitDirective | parse.go:192-209 | a line is a directive exactly when its comment text reads as one, with that word and body |
| QueryFile.AtSignIsDirective | parse.go:192-209 | a comment is a directive exactly when its text starts with an at sign: the lexer never fails on it |
| FileCases.CommentSpacing | parse.go:193-197 | any white space may stand around the dashes and the text of a comment |
| FileCases.FiveDirectives | parse.go:146-173 | exactly five words are directives |
| QueryFile.ParseSQLFile | parse.go:127-187 | the file parser yields what the lines denote, or the first failure; the index always agrees with a linear search of uniquely named parameters |
| QueryFile.ParseDirective | parse.go:146-173 | one directive takes its effect and keeps the index in agreement |
| QueryFile.DeclareParam | parse.go:161-170 | duplicates are refused by the index exactly when the list holds the name, and the new parameter enters both |
| QueryFile.IndexSnoc | parse.go:94-98 | entering a parameter into list and map keeps lookup equal to linear search |
| QueryFile.BodyIsTheRest | parse.go:125-144 | directives may stand anywhere: the statement is the other lines in order, the parameters the declared ones in order |
| FileCases.FileAcceptedIff | parse.go:127-187 | a file is accepted exactly when every directive in it is, no parameter is declared twice, some line names a database and the rest is not blank; it declares the last name, database and description given, the parameters in order and the rest |
| QueryFile.ParsedParams | parse.go:127-187 | in every file that parses, names are unique and every parameter is well formed |
| QueryFile.QueryRoundTrip | parse.go:127-187 | a query printed as directive lines and a body without directive-shaped lines is read back, under any default name, if and only if no line of the body ends in a carriage return |
| Reprint.ParsedPrintable | parse.go:211-271 | a declaration read from one line is given back by one line |
| Reprint.TrimKeepsOut | parse.go:179-197 | trimming a body without directives leaves none in it |
| Reprint.ParsedQuery | parse.go:127-187 | every file that parses declares what can be printed, exactly if its name is one line and not empty (the file's own name may not be): printable and uniquely named parameters, a trimmed body without directives |
| Reprint.QueryReprint | parse.go:127-187 | such a file, printed and read again under any default name, gives the same query if and only if no line of its statement ends in a carriage return |
| Reprint.ReturnLost | parse.go:134-142 | a first line ending in two carriage returns: the query is not given back |
| Binding.BindExpander.Walk | exec.go:116-155 | the walk with its mutable argument list and error yields the rewritten tree and the arguments in source order, or the first bad bind; after an error nothing changes |
| Binding.BindExpander.FlattenExprList | exec.go:160-170 | the loop splices each directly nested list in place |
| Binding.BindExpander.VisitEndBind | exec.go:133-152 | one bind is replaced and its arguments appended, or its error recorded |
| Binding.BindExpander.ExpandItems | exec.go:175-190 | one placeholder and one argument per element |
| Binding.HolesMatchArgs | exec.go:77-190 | for any tree and values there are as many placeholders as arguments |
| Binding.BindKnown | exec.go:34-70 | the loop over the declared parameters resolves each from value, default or absence and chooses between named and positional binding |
| Binding.BindArgs | exec.go:27-71 | an undeclared value is refused by name; otherwise the outcome is that of the declared parameters |
| Binding.ExpandLists | exec.go:81-96 | a statement that does not parse or has a bad bind is refused; otherwise tree and arguments of the rewrite |
| Binding.ResolveAllSucceeds | exec.go:34-60 | resolution succeeds exactly when each parameter resolves by itself, and then maps each to its own value |
| Binding.DeclaredBinds | exec.go:193-206 | once lists are resolved, the rewrite fails exactly when the statement names an undeclared parameter |
| Binding.BindSucceedsIff | exec.go:27-96 | binding succeeds exactly when every parameter resolves and, with a list among them, the statement parses and names only declared ones |
| Intended.ResolvesToSupplied | exec.go:36-59 | a parameter that resolves has the value supplied, else its default, else NULL or the empty list; one that does not is missing, or no list |
| Intended.FirstUnresolved | exec.go:36-59 | the first parameter that does not resolve is the one reported |
| Intended.BoundByName | exec.go:62-68 | without list parameters the authored text goes out with, for each declared parameter in order, its name and that value |
| Intended.BoundMeans | exec.go:27-96 | with a list parameter the tree goes out that, filled from left to right, has on every row the result of the authored statement with each `:name` as that parameter's value |
| Intended.ScalarArgument | exec.go:133-152 | the argument of `:name` is the resolved value of that name |
| Intended.ListArguments | exec.go:138-149 | the arguments of a list bind are the elements of its value, in order |
| Intended.UndeclaredBind | exec.go:193-204 | a bind that names no parameter is reported by its name |
| Intended.UnparsedRefused | exec.go:81-85 | a statement that has to be rewritten and does not parse is refused |
| Expansion.RewriteSplices | exec.go:77-190 | without authored nesting, the rewritten tree filled left to right is the authored one with each value, and each list's elements, spliced in place |
| Expansion.RewriteSplicesIff | exec.go:157-170 | that holds if and only if no list was authored directly inside a list |
| Expansion.NestingChangesMeaning | exec.go:157-170 | `(1, 2) IN ((1, 2))` is true as authored and false as run |
| Expansion.SplicedMeans | exec.go:77-80 | splicing and evaluating equals evaluating directly under the named values |
| Expansion.ExpansionPreservesMeaning | exec.go:77-190 | the rewritten statement with its arguments has the three-valued result of the authored one, for every row and interpretation of the comparisons |
| Expansion.NullBelowEmptySet | exec.go:139-145 | on every row the NULL for an empty list gives NULL or the empty-set result, under any mixture of connectives; only NULL tests and row values over an empty parameter are excluded |
| Expansion.EmptyListNeverWidens | README.md:187-189 | a row kept by the statement that runs is kept under empty-set membership too |
| Expansion.EmptyListSoundWhenPositive | exec.go:139-145 | in formulas of AND, OR and IN without negation over lists, both readings make the same rows true |
| Expansion.EmptyListExactWhenPositive | README.md:187-189 | the statement that runs keeps in positive position exactly the rows of empty-set membership |
| Expansion.NotInEmptyKeepsNothing | exec.go:139-145 | `NOT IN` a list with an empty parameter is true on no row, where membership in the empty set alone would make it true on all |
| Expansion.NullTestWidensIff | README.md:187-189 | a NULL test of an IN, negated or not, is true as run but not under the empty set on exactly the rows that are not members, if an empty parameter is among the items, and otherwise has the same result |
| Expansion.NullTestWidens | README.md:187-189 | with an empty parameter alone that is every row, whatever is tested |
| Probe.ProbeValues | store.go:190-203 | a value of the declared shape for every required parameter and for no other |
| Probe.ProbeTyped | store.go:197-201 | the value is of the parameter's type: an empty text, zero or false, alone in a list |
| Probe.ProbeResolves | store.go:190-207 | every parameter of a parsed query resolves against the probe values |
| Probe.ProbeBinds | store.go:190-207 | the probe of every query that parses binds without unknown, missing or misshapen value, if a statement that has to be rewritten parses and names only declared parameters |
| Body.JsonShape | values.go:52-126 | a body value is NULL exactly for a JSON null, and else of the declared type, a list having one element per array item |
| Body.JsonRead | values.go:52-126 | a value of the declared type, written in JSON, is that value; lists item by item in order, nulls included |
| Body.JsonSpellings | values.go:74-124 | a string means what it means in a query string; numbers and booleans are text for a text parameter |
| Body.JsonMisfits | values.go:57-124 | what does not fit its type is refused |
| Body.BodyValueBinds | exec.go:52-58 | of the values a body can supply, binding refuses exactly a null for a list |
| Body.DecodeBody | handler.go:250-276 | accepted exactly when every field is declared and fits its type, and then supplies exactly the fields' values |
| Http.BufferedWriter.Spill | exec.go:254 | bufio: a text that does not fit bypasses an empty buffer or fills and passes on the buffer, keeping the order of bytes |
| Http.BufferedWriter.Write | exec.go:254 | bufio: accepted bytes are delivered then waiting, in order, and how many wait after a successful write is exact; a failure sticks and leaves a prefix; a write that overflows an empty buffer succeeds exactly when the connection takes it |
| Http.BufferedWriter.Flush | exec.go:254 | bufio: everything waiting is delivered or the failure sticks; nothing accepted is lost or reordered |
| Stream.StreamQuery | exec.go:232-307 | whatever the connection does: errors are after-first exactly when rows were counted, delivered bytes are a prefix of the rows, success delivers exactly the counted rows, and a plain error finds a status sent exactly when the first line overflowed the buffer and was not taken; if no write failed: the planned rows, flag and error, and after an error exactly the bytes that had left the buffer |
| Stream.SendRows | exec.go:266-296 | the row loop with cap and batches keeps delivered plus buffered bytes equal to the lines of the rows so far, and the buffer at the level that its rows give it |
| Stream.SendRow | exec.go:281-295 | one row is encoded, counted and, at the end of a batch, flushed; a failure before the count means it overflowed the buffer |
| Stream.Finish | exec.go:297-306 | the driver's error leaves the buffer undelivered; otherwise the rest is flushed |
| Stream.CapIsExact | exec.go:266-285 | of n rows the first min(n, cap) go out and truncation is marked exactly when 0 < cap < n |
| Stream.FirstFaultDecides | exec.go:266-299 | the first row that cannot be sent ends the run with its own cause, plain before any row; without one the driver's last word decides |
| Stream.Sizes | exec.go:254-295 | batches of 256 rows and a buffer of 32 KiB |
| Stream.CapHidesTheRest | exec.go:266-285 | two answers that agree up to the cap and go on beyond it give the same rows, mark, error and bytes: no later row or fault is ever seen |
| Stream.CountedIsDelivered | README.md:364-365 | after an error the counted rows are the delivered ones exactly when the last of them ended a batch or was too long to wait in the buffer |
| Stream.BatchesDelivered | exec.go:288-295 | whole batches are always delivered, and nothing else when the rest fits the buffer |
| Stream.ArrivedIs | README.md:364-365 | the rows delivered whole are the first ones, at least those of whole batches, and all counted ones exactly when nothing waits |
| Stream.ArrivedInBatches | exec.go:284-295 | when the rest fits the buffer, they are exactly the rows of whole batches |
| Stream.TornIs | handler.go:99-103 | the delivered bytes end at the end of a row exactly when no row of the batch left a rest beside rows already waiting |
| Stream.SecondRowTorn | handler.go:99-103 | two rows that fit the buffer one by one but not together: the error record continues the second |
| Stream.OneRowCountedNotDelivered | README.md:364-365 | one row that fits the buffer and then a driver error, in place of a further row or after the last: counted, nothing delivered |
| Stream.LongRowDelivered | exec.go:281-288 | one row longer than the buffer and then a driver error: counted and delivered in full |
| Respond.SetRangeTrailer | handler.go:331-339 | the trailer for offset and rows, in wrapping 64-bit arithmetic |
| Respond.RangeRoundTrip | handler.go:325-339 | a client reads back first and last row, or an empty page, for every offset and count that fit 64 bits |
| Respond.Fail | handler.go:347-358 | 504 for a deadline and 500 for anything else, with its record; a second status is attempted exactly when one had been sent |
| Respond.FailMidStream | handler.go:364-379 | one record after what was sent; no status but the implied 200 |
| Respond.PartialRange | README.md:364-365 | the trailer of a partial response covers the rows that arrived whole exactly when nothing waited in the buffer |
| Respond.TruncationRead | handler.go:117-120 | a client reads the cap back from the truncation trailers, and none without them |
| Respond.Serve | handler.go:89-130 | a second status is attempted exactly when the first line overflows the buffer and the connection does not take it; over one that holds: 504 for a deadline and else 500 with nothing but the record when no row was counted, else 200 with all planned rows, or with exactly what had left the buffer and one partial record; over any: no trailers with an error status, the range otherwise, and `X-Truncated` with `X-Max-Rows` exactly on a success whose rows outnumber a positive cap |
| Respond.SecondStatus | handler.go:341-357 | a first line one longer than the buffer over a connection that takes nothing: a second status is attempted |
| Respond.NothingDelivered | README.md:350-365 | responses, with the error before or after the end of the rows, whose trailer covers one row and whose body is the error record alone |
| Wrapper.RenderFilter | values.go:401-429 | text and arguments of one filter, one argument per placeholder |
| Wrapper.BuildWhere | values.go:354-362 | the clause joins all filters' texts and appends their arguments in order |
| Wrapper.BuildOrder | values.go:364-383 | the clause lists all order terms in order |
| Wrapper.BuildLimit | values.go:385-396 | limit and offset in the four forms, with their arguments |
| Wrapper.BuildWrapper | values.go:340-399 | the whole wrapped text and its arguments |
| Reader.ReadFilterIs | values.go:401-429 | a reader recovers any filter from its text and arguments, whatever follows |
| Reader.ReadFiltersIs | values.go:354-362 | and a conjunction of any number of them |
| Reader.ReadTermsIs | values.go:364-383 | a reader recovers the order terms |
| Reader.ReadLimitIs | values.go:385-396 | a reader recovers limit and offset, including `LIMIT -1 OFFSET` and no offset |
| Reader.ReadSelectIs | values.go:344-349 | a reader recovers the select list |
| Reader.ReadFromParts | values.go:350-352 | the inner statement is found whatever it contains |
| Reader.WrapperReadsBack | values.go:334-429 | text and arguments determine inner statement, select list, filters, order, limit and offset for all options the parsers produce |
| Shaping.ReadTreeIs | values.go:401-429 | a reader that knows nothing of filters reads the text of a filter as the condition on its column that the model evaluates |
| Shaping.PassesIs | values.go:401-429 | a filter asks for its column's comparison with its own values, negated or not |
| Shaping.NegationPartitions | values.go:173-236 | for every parsed filter other than a NULL test, a row passes it, passes its `not.` form or has NULL in the column: exactly one of the three |
| Shaping.NullTestsComplement | values.go:205-207 | IS NULL and IS NOT NULL are exact complements |
| Shaping.ConjunctionIsKept | values.go:354-362 | the AND of the filters keeps exactly the rows that pass each |
| Shaping.FilteredPermuted | values.go:354-362 | the order of filters does not change the rows kept, nor their order |
| Input.CollectInput | handler.go:145-221 | the loop over the keys settles exactly what they ask for, or fails with the first refused key |
| Asked.AcceptedIff | handler.go:145-221 | a request is accepted exactly when each key is: a parameter's values convert, an option parses, a limit or offset is a non-negative integer, every filter parses |
| Asked.FiltersAsked | handler.go:207-216 | the filters of an accepted request are exactly those of all values of all keys that are neither parameters nor options |
| Asked.FiltersWritten | handler.go:207-216 | a client that writes filters on a column gets exactly those, in order, and nothing else |
| Asked.LimitAsked | handler.go:193-199 | the limit is the number its first value is written as; without one there is none |
| Asked.OffsetAsked | handler.go:200-206 | and so is the offset |
| Asked.ShapeAsked | handler.go:181-192 | columns and order are what their first values parse to; without them none are asked for |
| Input.CollectParam | handler.go:158-176 | a list from repetition or commas, a scalar from the first value |
| Asked.ParamValueIs | handler.go:158-176 | a scalar is what its first occurrence converts to; a list has one element for every occurrence, or for every part between the commas of a lone one |
| Asked.ThreeForms | README.md:178-184 | repetition, commas and a JSON array give the same list |
| Input.CollectOption | handler.go:180-217 | each option key changes its own field and no other |
| Input.CollectFilters | handler.go:207-216 | repeated keys stack as filters in order |
| Asked.FiltersOfIs | handler.go:207-216 | one filter for every value, in order, or a failure exactly if one fails |
| Input.GatherIs | handler.go:145-221 | gathering succeeds exactly when no key is refused; each slot then holds what settles it, wherever it stood, and the filters are all those added |
| Input.InputOrderIrrelevant | handler.go:145-221 | two orders of the same keys are both refused or give the same request but for the order of filters |
| Input.SameRowsKept | handler.go:145-221 | and such requests return the same rows in the same order, however rows are arranged |
| Input.InputValues | handler.go:152-178 | every value is the body's, or else what the query string says of a declared parameter; nothing else is bound |
| Pipeline.RequestLegal | values.go:238-250 | every accepted request has only valid columns and aliases, well-formed filters and non-negative limit and offset |
| Printer.QuoteReads | values.go:332-336 | whatever is quoted holds no placeholder |
| Printer.ShowReads | exec.go:77-95 | in the text of any statement the placeholders outside quotes are its holes in the same order: replacing the k-th in the text is filling the k-th in the tree |
| Pipeline.WrapperReads | values.go:340-429 | the wrapper adds one placeholder for each of its arguments, behind those of the inner statement, and none of them is in quotes |
| Pipeline.BuildStatement | handler.go:63-67 | wrapping happens exactly when shaping was asked for, over the statement without its trailing semicolons, and appends the wrapper's arguments |
| Pipeline.BuiltIsAsked | handler.go:63-67 | whatever the printer, the statement goes out as printed exactly if no column, filter, order, limit or offset was asked for; otherwise what goes out reads as the request over the printed statement, the statement's arguments first |
| Pipeline.FrameToTheLetter | values.go:344-352 | the text around the inner statement, to the letter |
| Pipeline.SelectToTheLetter | values.go:313-323 | select items and their list, to the letter |
| Pipeline.OrderToTheLetter | values.go:364-383 | an order clause, to the letter |
| Pipeline.LimitToTheLetter | values.go:385-396 | the window's text and arguments, to the letter |
| Pipeline.PlaceholdersAligned | handler.go:58-67 | for every tree the text sent has outside quotes exactly one placeholder per argument, and with each replaced by its own argument in text order it is the rewritten statement with its holes filled, and around it the wrapper with its own arguments; filled, it is the spliced authored statement exactly without authored nesting |
| Pipeline.BuiltReadsBack | handler.go:58-67 | that text and the arguments behind the inner statement's give back the request's select list, filters, order and window |
| Pipeline.SameAnswer | handler.go:145-221 | requests differing in key order are both accepted and bind the same values, and their statements select the same columns and return the same rows in the same order |
| Pipeline.AcceptedBinds | handler.go:53-61 | after acceptance no value is undeclared, and binding succeeds exactly when every required parameter was given, no list as null, and the statement, if rewritten, parses and names only declared parameters |
| Paging.PageIsStreamed | exec.go:266-285 | streaming the windowed result sends exactly the lines of the page's rows, and its truncation mark |
| Paging.PageOverHttp | handler.go:96-120 | a page is what a client gets: status 200, its rows' lines and its trailers, from which the cap that cut it off is read exactly if one did |
| Paging.PageRange | handler.go:331-339 | a page is the rows from its offset on, and its trailer says where it ends or that it is past the end |
| Paging.PagesIsCeiling | README.md:238-259 | the number of pages is n divided by the page size, rounded up |
| Paging.CollectByRange | README.md:249-259 | following `last + 1` until `*/*` collects every row once and in order in one request per page and one more, for any limit and cap, without overflow |
| Paging.CollectUntilShort | README.md:257-267 | stopping at a short page collects everything exactly when the cap does not cut pages short or one page holds all; what it collects is always a prefix |
| Paging.ShortPageTruncated | handler.go:116-120 | on a page shorter than asked for, rows remain exactly when it is marked truncated |
| Paging.BreakIsStreamed | exec.go:266-299 | a driver error within a page, after its last row or at the cap leaves all rows sent before it counted, with the same bytes delivered however the error shows up |
| Paging.RefusalIsStreamed | exec.go:266-299 | an error before any row is a plain one, still answered with a status |
| Paging.CollectThroughFaults | README.md:249-251 | for errors before, within or right after any page, a client that goes on from `last + 1` until an error status or the end receives, in order, all rows up to there but those counted while still in the buffer; it receives everything exactly when it gets to the end and no response broke off with rows waiting |
| Paging.MissedNone | README.md:364-365 | such a run misses no row exactly when nothing was waiting in any response that broke off |
| Paging.LastRowMissed | exec.go:297-299 | one row that fits the buffer and a driver error after it: the client is told of the row, finds the end behind it and never gets it |

## Left out

- SQLite, `database/sql` and the driver: a query is a sequence of rows and faults, comparisons are a parameter `Interp`, and ordering is a parameter `arrange`.
- The SQL parser and printer of rqlite: `parse` is a parameter, `Printer.Show` stands for the printer in its own layout, statements are the expression tree of `Syntax`, and visiting in source order is the definition of the model's walk. Comments in printed SQL are not part of this model.
- A list parameter outside the list of an IN: a list of several values prints as a row value, and one of a single value as `(?)`, which SQLite reads as a scalar; the model gives it a row value of one element on both sides.
- Numbering of parameters when named binds meet appended `?`: it depends on the driver. Alignment is stated for positional binding.
- `strconv` syntax of floats and booleans, and the float64 branches of `coerceJSON`, which its decoder never takes: the parameter `Strconv`, with round trips for any that reads back what it prints.
- JSON encoding and decoding, UTF-8 decoding and invalid bytes, time and blob rendering: lines and values are given.
- Positions counted in bytes: text is a sequence of code points, so lengths against the 32 KiB buffer count characters of the encoded line.
- The 8 MiB limit on a line of a query file.
- Titles, details, hints, columns and pointers of errors; where a request or file has several faults, which field or value is named when map order decides.
- `stripTrailingSemicolon` as a guarantee: the model does what the code does, one trailing run, and promises nothing about `a; ;`.
- Routing, HEAD, content types, body size, the catalog, configuration, discovery of files and databases, logging, install and release scripts.
- Flushing below the response writer: `w.Flush` only commits the status.
- Stream.StreamQuery: the row count is unbounded where the code has an int64, because no run reaches that many rows.
- Respond.Serve: the log calls and the response headers set before the body are not part of the state.
- Input.CollectInput: the query string arrives as a sequence of distinct keys in arbitrary order, which stands for iteration over a map.
- Reprint.QueryReprint: the query's name is one line and not empty, which only a file's own name can fail to be, and floats are formatted on one line, as `strconv` does.
- Paging.CollectByRange: the result is the same for every request of a run, as the repository's advice on a deterministic order requires.
- The record `Query` is a value that the file parser builds, not an object updated in place; the long bodies of `VisitEnd`, `parseParam`, `parseDefault`, `parseSQLFile` and `streamQuery` are cut into methods of their own.
