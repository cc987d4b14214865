# A verified model of the Aurora Data API proxy

The proxy speaks the PostgreSQL wire protocol to its clients and the Aurora Data API
to the cluster. This project models the parts of it where a mistake would be silent:
how it reads and rewrites SQL, how it converts values, what a session remembers, and
when it runs a statement. Everything is stated for all inputs, all runs, and all
patterns of success and failure of the Data API.

**Reading SQL.** `SqlLexer` is the lexer of `src/sql.rs` as a function on text, with
the scanning loop proved against it. SQL text is its UTF-8 bytes, one `char` a byte.
On it stand `SqlRewrite` (placeholders), `SqlSplice` and `SqlNulls` (casts and nulls of
types with quoted names), `SqlSplit` (statements), `SqlBinding` (the parameters sent with a
statement), `SqlTokens` (quoting and the table a write names), `SqlWords` (the keyword
checks), `SqlQuotes` (where a quoted string ends, here and in a standard string), `SqlEnds`,
`SqlBlank` and `SqlPlaceholders` (what opens and closes a span, what is blank, and what is
written for a placeholder, byte by byte), `SqlWrap` and `SqlWrites` (statements put inside
a subquery, and the write keywords of one), `ProbeWrap` and `ProbeWrites` (the same for the
probe's own subquery). The lexer has no memory and can be restarted wherever code is; that
is what makes rewriting, splitting and wrapping commute with it.

**Converting values.** `Numeric`, `NumericWire` and `NumericValue` cover `numeric`
between text and base-10000 groups; `ArrayLiteral` and `ArrayWire` cover array
literals and their binary framing over any element codec, `Bytea` and `ArrayCodecs`
two codecs to put in them; `Types` covers the advertised types; `DbError` the one-line
error text; `WireBytes` spells the formats out. These work on Unicode strings and on bytes
0 to 255.

**What a session remembers.** `Lru` is the ideal least-recently-used list, `ShapeCache`
the map and clock that refine it, `Shapes` the two levels of cache and any number of
sessions sharing them. `Transactions` is the transaction slot and its ledger of calls,
`Recovery` the session's failed flag against the server's aborted one. `HeldTags` is the
map of command tags keyed by reusable addresses.

**When a statement runs.** `DataApi` is the cluster as a log of calls and an oracle that
decides every reply; a call carries its text, its parameters and its transaction.
`ControlWords` is which statements are transaction control and when their calls go out,
`Fallback` and `Retries` the retry past types the Data API will not return, `Portals` the Describe
and Execute of the extended protocol, `KeyedPortals` the same with the tags under reusable
addresses, `CommitRuns` what COMMIT comes down to over a whole connection, and `ServerTx` and `Probe` the describe probe against a small model of the
server's transaction.

`Wrappers`, `Seqs`, `Text`, `Decimal` and `Bytes` hold the data types and facts the
others share.

Most methods are proved against a function, and the function against what it is for:
round trips, laws over runs, commuting with the lexer. Where a function only lists bytes,
words or numbers, a lemma named `...Exactly` says which, in full.

Where the code falls short of what its comments say, or of what a reader would expect,
the exact condition under which it holds is proved instead, and for the less plain ones
a lemma shows an input that fails:

- a string ends where a standard string does exactly if no backslash stands, in an odd
  run, before a quote inside it, unless only quotes follow to the end of the text
  (`SqlQuotes.StandardExactly`); the literal `'\'` runs on (`SqlQuotes.BackslashExample`);
- a wrap's closing parenthesis, and the probe's `WHERE false`, are code exactly if the
  statement's last span is closed: a quoted one by its own terminator, a block comment
  back at depth 0, a line comment never (`SqlWrap.ClosesExactly`, `SqlWrap.WrapLexes`,
  `ProbeWrap.NoRowsExactly`); `SELECT 1 -- c` is not (`SqlWrap.TrailingComment`);
- every placeholder name is bound exactly if enough parameters are
  (`SqlBinding.EveryNameIsBound`); for `SELECT $2` one is not (`SqlBinding.SecondUnbound`);
- `bytea` text comes back unchanged exactly if its digits are lower-case hexadecimal
  (`Bytea.TextRoundTrip`), since `+f` is also taken for a byte (`Bytea.PlusExample`);
- an error comes back unchanged exactly if the end of its message cannot be read as a
  field or a separator, and its values are trimmed, hold no `; ` and do not end in `;`
  (`DbError.RoundTrip`); `Detail: (a; b)` is lost and the message `x; Hint: y` is cut
  (`DbError.DetailLostExample`, `DbError.MessageCutExample`);
- every transaction was asked to end exactly if none was open when the client went while
  there was no runtime (`Transactions.OutsideRuntimeLeavesOpen`);
- COMMIT commits exactly if no statement run since BEGIN ended in an error from the Data
  API (`CommitRuns.CommitOverRuns`, and beside the server `CommitRuns.CommitBesideServer`).
  It sends a commit for a transaction the server aborted
  exactly if a statement of the proxy's own failed there, no rollback to a savepoint was
  served after it, and every statement of the client was reported to succeed
  (`Recovery.CommitsAborted`; a refused SAVEPOINT of the probe does it,
  `Recovery.RefusedProbeExample`);
- and it sends a rollback for a transaction PostgreSQL would commit exactly if a statement
  of the client was not reported to succeed and everything that failed at the server was
  followed by a rollback to a savepoint that was served there (`Recovery.RollsBackLive`; by
  recovery to a savepoint, `Recovery.RecoveredYetRolledBack`, or by a write whose result the
  Data API will not return, `Recovery.UnreturnableWriteExample`);
- the shape query of a read holds no write keyword, exactly if no type found for its
  placeholders does, for statements in which no placeholder runs on into an identifier
  (`ProbeWrites.ShapeQueryWritesExactly`); for any statement exactly if no stretch between
  its nulls, a type's name and the bytes behind it, makes one a word
  (`ProbeWrites.ShapeQueryByStretches`); in `SELECT x$1insert, $1::int4[]`, a read, one does
  (`ProbeWrites.RunOnExample`);
- typed nulls keep every span of the statement exactly if no quoted name stands directly
  behind a placeholder whose type ends in one (`SqlNulls.NullsSplice`); in `SELECT $1"x"`
  with type `"char"` one does (`SqlNulls.RunsIntoExample`);
- a probe in the caller's transaction whose savepoint was not reported set leaves it as
  it was exactly if it was aborted already or the request never arrived, and one whose
  cleanup was not reported done exactly if the release was served all the same
  (`Probe.RunProbe`, by way of `ServerTx.FailedSavepoint` and `Probe.EndProbe`);
- a second Describe of a portal reaches the Data API again exactly if its statement is
  neither transaction control nor refused as a hazard (`Portals.SecondDescribe`);
- a second Execute runs the statement again exactly if the first did not answer with
  rows (`Portals.SecondExecute`, `Portals.SecondExecuteAfterDescribe`);
- another session still answers with a shape stored before a schema change exactly if
  it stored that shape itself and has neither replaced nor forgotten it since
  (`Shapes.StaleExactly`, with a run in `Shapes.StaleShapeExample`).

The comment at `src/probe.rs:191` says that rewinding the savepoint undoes the PREPARE.
PostgreSQL keeps prepared statements across a rollback, and the model follows
PostgreSQL: prepared names only grow.

## Model

| member | source | states |
|---|---|---|
| SqlLexer.LexStructure | src/sql.rs:89-225 | the spans reproduce the input exactly, none is empty, no two code spans meet, and no literal or comment opens with a digit, so a placeholder lies within one code span |
| SqlLexer.StepStable | src/sql.rs:109-219 | a literal or comment ends where it did however the text after it is cut or rewritten, provided the change cannot be seen at its edge |
| SqlLexer.CutStaysCode | src/sql.rs:107-221 | cutting a text short never makes something open that did not |
| SqlLexer.DollarDelimiterLen | src/sql.rs:62-86 | the loop finds the length of a dollar-quote delimiter, or that there is none |
| SqlLexer.SingleQuotedEnd | src/sql.rs:109-136 | the loop stops at the end of the literal, doubled quotes and backslash escapes included |
| SqlLexer.DoubleQuotedEnd | src/sql.rs:138-159 | the loop stops at the end of the quoted identifier |
| SqlLexer.DollarQuotedEnd | src/sql.rs:161-182 | the loop stops behind the first closing delimiter, or at the end |
| SqlLexer.LineCommentEnd | src/sql.rs:184-195 | the loop stops at the newline that ends the comment, or at the end |
| SqlLexer.BlockCommentEnd | src/sql.rs:197-218 | the loop stops where the nesting comes back to zero, or at the end |
| SqlLexer.SpanAt | src/sql.rs:107-221 | what opens at an offset and where it ends agree with the lexer specification |
| SqlLexer.Scan | src/sql.rs:89-225 | the spans tile the input in order without a gap, and are exactly the pieces of the specification |
| SqlLexer.SpanBoundaries | src/sql.rs:89-225 | on well-formed UTF-8 every span starts and ends on a character boundary |
| SqlLexer.SpanIsStep | src/sql.rs:89-225 | each span is what the lexer finds when restarted at that offset |
| SqlEnds.DelimiterExactly | src/sql.rs:55-86 | a dollar-quote delimiter of n bytes opens a text exactly if these are two `$` with nothing or a tag between them: letters, digits, underscores and non-ASCII bytes, no digit first |
| SqlEnds.DollarQuotedExactly | src/sql.rs:161-182 | such a text is one literal up to the end of the first later copy of its delimiter, or to its own end if there is none |
| SqlEnds.DollarQuotedOnly | src/sql.rs:161-182 | and no other text is a dollar-quoted literal |
| SqlEnds.LineCommentExactly | src/sql.rs:184-195 | two dashes open a comment that ends before the first newline or with the text |
| SqlEnds.NestedComment | src/sql.rs:197-218 | a block comment ends at the mark that closes it, not at one that closes a comment inside it, and with the text if there is none |
| SqlEnds.StringLexes | src/sql.rs:109-136 | any text without a backslash, its quotes doubled, is one string between quotes |
| SqlEnds.BackslashTakes | src/sql.rs:114-119 | a backslash takes the byte after it into the string |
| SqlEnds.WordBytes | src/sql.rs:49-55 | which bytes open a word and which stand in one |
| SqlQuotes.StandardExactly | src/sql.rs:113-131 | a string ends where a standard string does exactly if no backslash escapes a quote inside it, or only where the text runs out in quotes |
| SqlQuotes.BackslashExample | src/sql.rs:114-119 | the literal `'\'` is whole as a standard string, and the lexer takes what follows into it |
| SqlQuotes.SingleClosesExactly | src/sql.rs:109-136 | a string that reaches the end of the text keeps code put behind it out exactly if it ends in a quote that neither a backslash nor another quote takes |
| SqlQuotes.DoubleClosesExactly | src/sql.rs:138-159 | and an identifier exactly if it ends in an odd number of quotes |
| SqlRewrite.RewriteCommutes | src/sql.rs:288-327 | lexing the rewritten text gives the old spans, literals and comments byte for byte and code with its placeholders replaced |
| SqlRewrite.RewriteOnce | src/sql.rs:288-327 | a second rewrite, with any replacements, changes nothing and finds no parameter |
| SqlRewrite.RewriteByPieces | src/sql.rs:288-327 | rewriting in one pass and rewriting span by span agree |
| SqlSplice.SpliceCommutes | src/sql.rs:288-327 | for replacements that hold quoted names and close what they open, lexing the rewritten text gives the statement's own spans, with those of the replacement in place of each placeholder |
| SqlSplice.LiteralKept | src/sql.rs:288-327 | so every literal and comment of the statement is in the rewritten text, byte for byte |
| SqlRewrite.CodeSpanEnd | src/sql.rs:293-320 | the digits of a placeholder never run past the end of its code span |
| SqlRewrite.RewriteCodeSpan | src/sql.rs:297-324 | the inner loop replaces exactly the placeholders of one code span and finds their highest index |
| SqlRewrite.MapPlaceholders | src/sql.rs:288-327 | the whole loop computes the rewrite and the highest index |
| SqlSplit.SplitLossless | src/sql.rs:344-370 | the fragments joined with semicolons reproduce the input |
| SqlSplit.FragmentAlone | src/sql.rs:344-370 | a fragment taken alone splits into just itself |
| SqlSplit.AloneMeansNoSemi | src/sql.rs:344-370 | a text is a single fragment exactly if no code span of it holds a semicolon |
| SqlSplit.StatementAlone | src/sql.rs:344-378 | a statement that was split off splits into just itself |
| SqlSplit.SplitKeepsLiterals | src/sql.rs:344-370 | splitting cuts no literal or comment: the fragments lexed one by one have exactly those of the whole |
| SqlSplit.BlankRewrite | src/sql.rs:373-378 | rewriting neither blanks a statement nor fills a blank one |
| SqlSplit.SplitCommutesWithRewriting | src/sql.rs:288-378 | rewriting every statement of a split is splitting the rewritten whole |
| SqlSplit.IsBlankStatement | src/sql.rs:373-378 | blank means white space and comments only |
| SqlBlank.BlankExactly | src/sql.rs:373-378 | a statement is blank exactly if each span is a line comment, a block comment, or white space characters, which are listed |
| SqlSplit.SplitStatements | src/sql.rs:344-370 | the loop returns exactly the non-blank fragments, in order |
| SqlBinding.PlainTypesAreInert | src/sql.rs:238-285 | casts and nulls built from plain type names cannot open, close or extend anything in the text around them |
| SqlBinding.CastsCommute | src/sql.rs:264-275 | rewriting with casts keeps every span, and a second rewrite changes nothing |
| SqlSplice.CastsSplice | src/sql.rs:264-275 | casts keep the statement's spans for every type name, quoted or not, that closes what it opens |
| SqlNulls.NullsSplice | src/sql.rs:277-285 | typed nulls keep the statement's spans, for type names of plain code and closed quoted names, exactly if no quoted name stands directly behind a placeholder whose type ends in one |
| SqlNulls.SpliceExactly | src/sql.rs:288-327 | the same for all replacements made of plain code and closed quoted names |
| SqlNulls.RunsIntoExample | src/sql.rs:277-285 | `SELECT $1"x"` with the type `"char"` runs the two names into each other |
| SqlNulls.SplicedClosed | src/sql.rs:277-285 | such nulls leave a statement that ends closed closed, and any other as it was |
| SqlBinding.NullsCommute | src/sql.rs:279-285 | putting typed nulls in keeps every span |
| SqlBinding.RewritePlaceholdersWithCasts | src/sql.rs:264-275 | the rewritten text and the highest index |
| SqlPlaceholders.PlaceholderExactly | src/sql.rs:288-327 | a `$` and digits in front of any text give way to the replacement of the number they denote if it is at least 1 and fits in 64 bits, and else stay |
| SqlPlaceholders.DigitsAreRead | src/sql.rs:302-312 | digits are read as a decimal number |
| SqlPlaceholders.CastAtPlaceholder | src/sql.rs:264-275 | placeholder n becomes `CAST(:pn AS t)` with t the n-th type, or `:pn` if there is none |
| SqlPlaceholders.CastOfPlaceholder | src/sql.rs:264-275 | the same for a text that is nothing but a placeholder |
| SqlBinding.SubstituteNullParams | src/sql.rs:279-285 | the text with a null for every placeholder |
| SqlPlaceholders.NullAtPlaceholder | src/sql.rs:277-285 | placeholder n becomes `NULL::t` with t the n-th type, or `NULL` |
| SqlPlaceholders.NullOfPlaceholder | src/sql.rs:277-285 | the same for a text that is nothing but a placeholder |
| SqlBinding.SimpleQueryCommutes | src/handlers.rs:493-520 | a simple query split and then rewritten is the rewritten query split |
| SqlBinding.IndexesBound | src/sql.rs:293-320 | the count of the rewrite is the highest index of any placeholder, and one reaches it |
| SqlPlaceholders.CountOfPlaceholder | src/sql.rs:293-320 | a placeholder asks for as many parameters as its number |
| SqlBinding.RewriteAgrees | src/sql.rs:288-327 | replacements for other indexes than those listed do not reach the rewritten text |
| SqlBinding.InsertedExactly | src/sql.rs:288-327 | the rewritten text takes in the replacement for an index exactly as often as the index is listed |
| SqlBinding.ParamNameInjective | src/sql.rs:238-240 | different indexes give different names |
| SqlBinding.EveryNameIsBound | src/handlers.rs:445-476 | every name the rewriter put in is sent exactly if at least as many parameters are bound as the highest placeholder |
| SqlBinding.SecondUnbound | src/handlers.rs:445-476 | `SELECT $2` with one value bound asks for a name that is not sent |
| SqlBinding.SentNamesDistinct | src/handlers.rs:445-476 | no name is sent twice |
| SqlBinding.PreparePortal | src/handlers.rs:409-477 | entry i is named p(i+1), `$i+1` is cast under that name to its type, and its value is converted by its declared type or the one cast to; or one could not be converted |
| SqlPlaceholders.CastTypesExactly | src/handlers.rs:421-447 | the type of parameter i+1 is the declared one if it can be cast, or else what the probe found for that same parameter, which is asked exactly if some bound value has no declared type |
| SqlPlaceholders.DecodedAsExactly | src/handlers.rs:450-467 | value i+1 is converted by its declared type, or else by the one its own cast names |
| SqlTokens.QuoteLexes | src/sql.rs:790-796 | a quoted name is one span in front of any text that does not open with a quote |
| SqlTokens.QuoteRoundTrip | src/sql.rs:566-600 | a quoted name scans as one quoted identifier and tokenises back to the name |
| SqlTokens.DottedRoundTrip | src/sql.rs:772-796 | a dotted name with quoted parts tokenises back to its parts |
| SqlTokens.TokensMethod | src/sql.rs:566-600 | the loop computes the tokens |
| SqlTokens.TokensAreWords | src/sql.rs:566-600 | every unquoted name among a text's tokens is a whole identifier run |
| SqlTokens.DmlTargetTable | src/sql.rs:739-788 | the table name returned is the dotted name found after the keyword |
| SqlTokens.VerbExactly | src/sql.rs:750-768 | a table's name stands behind UPDATE, INSERT INTO, MERGE INTO or DELETE FROM, of any case and unquoted |
| SqlTokens.NameGoesOn | src/sql.rs:770-787 | and goes on as long as dots do |
| SqlTokens.CommentsExactly | src/sql.rs:744-747 | comments in front are passed over, and nothing else |
| SqlTokens.TargetTableRoundTrip | src/sql.rs:739-796 | the table name built for `RETURNING *` tokenises to exactly the tokens that name the table in the statement |
| SqlWords.ModifiesDataExact | src/sql.rs:444-482 | the write check fires exactly if INSERT, UPDATE, DELETE or MERGE, of any case, stands as a word in code |
| SqlWords.ModifiesDataMethod | src/sql.rs:444-482 | the loop decides that check |
| SqlWords.LeadingWordsMethod | src/sql.rs:383-423 | the loop returns the leading words in upper case, comments skipped |
| ControlWords.WordFirst | src/sql.rs:383-423 | a word in front of a text is its first leading word, in upper case |
| ControlWords.SpaceFirst | src/sql.rs:383-423 | white space in front changes nothing |
| ControlWords.CommentFirst | src/sql.rs:383-423 | nor does a comment |
| ControlWords.OtherFirst | src/sql.rs:383-423 | any other byte of code, a literal or a quoted name ends the words |
| ControlWords.NothingFirst | src/sql.rs:383-423 | an empty text has no leading words |
| ControlWords.UpperExactly | src/sql.rs:401 | words are put in upper case letter by ASCII letter |
| ControlWords.ControlExactly | src/exec.rs:166-189 | a statement opens a transaction exactly if its words are BEGIN or START TRANSACTION, commits for COMMIT or END, rolls back for ABORT or ROLLBACK without TO, and is no transaction control otherwise |
| ControlWords.SchemaExactly | src/sql.rs:425-436 | a statement could change a shape exactly if its first word is one of five |
| ControlWords.EveryCallMeant | src/handlers.rs:139-183 | over every run and whatever the replies, a commit goes out only during a command whose statement opens with COMMIT or END, a transaction is opened only during one that asks for it and rolled back only during one that ends it; never during a Describe |
| SqlWrap.StepExtends | src/probe.rs:310 | a literal or comment that reaches the end of a statement closes there, or swallows all of the text put behind it |
| SqlWrap.ClosesExactly | src/sql.rs:109-219 | a literal or comment at the end of a text is left alone by a parenthesis behind it exactly if it ends in its own terminator, or back at comment depth 0; a line comment never is |
| SqlWrap.LexExtend | src/handlers.rs:339 | the spans of a statement with the end of a wrap behind it |
| SqlWrap.WrapLexes | src/handlers.rs:336-378 | a wrap lexes as the wrap around the statement's own spans, its parenthesis being code exactly if the last span is closed |
| SqlWrap.TrailingComment | src/handlers.rs:336-344 | `SELECT 1 -- c` takes the end of the wrap into its comment |
| ProbeWrap.ShapeQueryLexes | src/probe.rs:301-315 | the shape query lexes as the wrap around the statement's own spans, with a null for each placeholder |
| ProbeWrap.NoRowsExactly | src/probe.rs:301-315 | its `WHERE false` is code exactly if the statement's last span is closed |
| ProbeWrap.ShapeQuerySplices | src/probe.rs:301-315 | with quoted type names that run into nothing the shape query lexes as the wrap around the statement's own spans, with the pieces of a null for each placeholder |
| ProbeWrap.NoRowsNamed | src/probe.rs:301-315 | and its `WHERE false` is code exactly if the statement's last span is closed |
| ProbeWrap.ShapeQueryWrites | src/probe.rs:301-315 | it holds a write keyword in code exactly if the statement with its nulls does |
| ProbeWrites.ShapeQueryWritesExactly | src/probe.rs:301-315 | it holds a write keyword in code exactly if the statement does or a type found for one of its placeholders, when no placeholder runs on into an identifier |
| ProbeWrites.ShapeQueryByStretches | src/probe.rs:301-315 | whether or not placeholders run on, it holds one exactly if a write keyword stands as a word in a stretch between the nulls: the statement's own bytes, or a type's name with the bytes behind its placeholder |
| ProbeWrites.ProbeOfReadWritesNothing | src/probe.rs:301-315 | so the shape query of a statement that only reads writes nothing |
| ProbeWrites.RunOnExample | src/probe.rs:301-315 | `SELECT x$1insert, $1::int4[]` writes nothing, and its shape query holds `insert` as a word |
| Numeric.PackThenPrint | src/types.rs:564-655 | packing decimal text into groups and printing them gives the sign, the integer part without leading zeros and the same fraction digits |
| Numeric.PrintThenPack | src/types.rs:866-928 | printing canonical groups and packing the text gives the same groups, weight and scale |
| NumericWire.NumericToBinary | src/types.rs:564-659 | the loops that push, drain and pop groups write the specified bytes, or report the specified error |
| NumericWire.BinaryNumericToText | src/types.rs:866-928 | the decoding loops print the specified text, or report the specified error |
| Text.TrimExactly | src/types.rs:579 | trimming takes white characters off both ends and nothing else |
| Text.WhiteExactly | src/types.rs:392-393 | the characters that are white |
| WireBytes.DecimalIsRead | src/types.rs:593-613 | a sign at most, digits and perhaps a point and digits, white space around them dropped, are read as what they say |
| WireBytes.ReadIsDecimal | src/types.rs:593-613 | and nothing else is read as a finite number |
| WireBytes.SpecialBytes | src/types.rs:564-591 | the bytes of NaN and the infinities |
| WireBytes.SpecialRead | src/types.rs:874-880 | and what they are read as |
| WireBytes.PackedBytesAre | src/types.rs:575-580 | where the count, the weight, the sign, the scale and each group of a number are, and the sign's two words |
| WireBytes.EncodedIsPacked | src/types.rs:641-655 | a number that is not refused is written so, with the scale it was given |
| WireBytes.RefusedExactly | src/types.rs:614-655 | a number is refused exactly for over 32767 places or groups or a weight that does not fit in 16 bits |
| WireBytes.DecodedFields | src/types.rs:866-890 | a decoded number is made of the weight, scale and groups as written, negative for one sign word only |
| WireBytes.GroupExactly | src/types.rs:890-925 | a group is printed as its digits, zeros in front up to four characters |
| WireBytes.SixteenBits | src/types.rs:575-580 | 16 bits are written high byte first, in two's complement |
| WireBytes.SixteenBitsRead | src/types.rs:866-890 | and read so |
| WireBytes.ThirtyTwoBits | src/types.rs:668-695 | and so are 32 |
| NumericWire.TextRoundTrip | src/types.rs:564-928 | text to binary and back is exact for every text the encoder accepts, `NaN` and the infinities included |
| NumericWire.BinaryRoundTrip | src/types.rs:564-928 | binary to text and back is the identity on canonical encodings, whatever the weight |
| NumericValue.PackedValue | src/types.rs:589-640 | the groups weighted by powers of 10000 add up to the decimal value, though zero groups were dropped at both ends |
| ArrayLiteral.QuoteArrayElement | src/types.rs:389-407 | the loop quotes exactly the elements that need it and escapes quotes and backslashes |
| ArrayLiteral.ArrayToText | src/types.rs:327-387 | the loop prints a list of optional strings as a literal |
| ArrayLiteral.ParseArrayLiteral | src/types.rs:699-746 | the parser's loop and flags compute the specified list, or refuse the text |
| ArrayLiteral.RefusedExactly | src/types.rs:699-706 | a text is refused exactly if it is not in braces, white space around them apart |
| ArrayLiteral.UnquotedElement | src/types.rs:709-746 | an element without quotes is NULL of any case, or its text without the white space around it; a comma ends it |
| ArrayLiteral.QuotedExactly | src/types.rs:389-407 | which elements are written without quotes |
| ArrayLiteral.EscapeExactly | src/types.rs:389-407 | quotes and backslashes are escaped and nothing else |
| ArrayLiteral.LiteralRoundTrip | src/types.rs:327-746 | parsing a printed literal gives the same list, empty strings, the word NULL, quotes, backslashes, commas and white space included |
| ArrayWire.ArrayToBinary | src/types.rs:668-695 | the encoder writes the header and every element, or reports the specified error |
| ArrayWire.BinaryArrayToText | src/types.rs:931-976 | the cursor loop reads the elements back, or reports the specified error |
| WireBytes.DimensionsExactly | src/types.rs:931-944 | no dimension is the empty array, and any number of them but one is refused |
| WireBytes.ArrayHeaderBytes | src/types.rs:668-681 | the twenty bytes an array opens with |
| ArrayWire.ArrayRoundTrip | src/types.rs:668-976 | for any element codec that brings the elements back, decoding the encoding gives the same literal and reads every byte |
| ArrayWire.PrintedArrayRoundTrip | src/types.rs:327-976 | a printed literal survives the wire character for character |
| Bytea.DecodeBytea | src/params.rs:78-98 | the loop decodes hexadecimal pairs, or refuses the text |
| WireBytes.ByteaExactly | src/types.rs:493-508 | text is accepted exactly if it is `\x` and pairs of two hexadecimal digits, or of a plus sign and one |
| WireBytes.PairExactly | src/types.rs:493-508 | and what each pair stands for |
| Bytea.ByteaRoundTrip | src/types.rs:317-325 | rendered bytes decode to the same bytes |
| Bytea.TextRoundTrip | src/types.rs:493-508 | accepted text renders back unchanged exactly if its digits are lower-case hexadecimal |
| Bytea.PlusExample | src/types.rs:493-508 | `\x+f` is accepted and comes back as `\x0f` |
| ArrayCodecs.NumericSurvives | src/types.rs:564-976 | a numeric array element comes back unchanged exactly if it is in normal form: digits with no needless zero in front, a fraction of at least one digit, a minus sign at most, or one of three words |
| ArrayCodecs.NormalExactly | src/types.rs:564-655 | printing what was read of a decimal gives the same text exactly if it is in normal form |
| ArrayCodecs.ByteaArrayRoundTrip | src/types.rs:317-976 | a `bytea[]` keeps every byte and every NULL through literal and wire |
| Types.CastKeepsType | src/types.rs:132-153 | a cast keeps the advertised type, except for a date or timestamp column in the wide retry |
| Retries.CastExactly | src/types.rs:132-153 | what a column of each type is cast to in the retry |
| Retries.ArrayCastExactly | src/types.rs:132-140 | and one of an array type |
| Retries.AdvertisedExactly | src/types.rs:41-77 | what each type is advertised as |
| Retries.ArrayAdvertisedExactly | src/types.rs:80-105 | and each array type |
| DbError.ParseDbError | src/dataapi.rs:384-438 | the peeling loop computes the specified parse |
| DbError.PeelFields | src/dataapi.rs:394-421 | fields with trimmed values that hold no `; ` are peeled off from the right, whatever stands in front, less the semicolons they end in |
| DbError.RoundTrip | src/dataapi.rs:384-438 | parsing a rendered error whose fields are all different, the last not empty, returns its severity, message and fields exactly if the end of the message cannot be taken for a field or a separator and every value is trimmed, holds no `; ` and does not end in `;` |
| DbError.DetailLost | src/dataapi.rs:384-438 | a detail that holds `; ` before something that is no field is returned whole as part of the message, for every message and detail |
| DbError.DetailLostExample | src/dataapi.rs:384-438 | so `(a; b)` is not read as a detail |
| DbError.MessageCut | src/dataapi.rs:394-421 | a message whose last piece reads as a field loses it to that field |
| DbError.MessageCutExample | src/dataapi.rs:394-421 | so `x; Hint: y` comes back as `x` |
| DbError.RenderedForm | src/dataapi.rs:379-383 | the rendered form is the one the service uses, severity first and SQLState last |
| DbError.CollectedIs | src/dataapi.rs:394-421 | a field written once is read with its own value, and none is made up |
| DbError.FieldsRead | src/dataapi.rs:384-438 | each field of a rendered error is read into its own place, and the code is XX000 if it is not there |
| DbError.FieldExactly | src/dataapi.rs:394-421 | the five fields by their names |
| DbError.SeverityExactly | src/dataapi.rs:424-446 | a word and a colon are a severity exactly if the word is one of eight; else all of it is the message of an ERROR |
| DbError.BareMessage | src/dataapi.rs:424-438 | a text without severity and fields is the message of an ERROR with the code XX000 |
| Lru.LimitKept | src/session.rs:104-128 | over every run the size never passes the limit, which holds exactly for limits of at least 1 |
| Lru.RecentlyUsedStays | src/session.rs:96-128 | a key inserted and then followed by uses of fewer other keys than the limit is still there with its value |
| Lru.RecentlyFoundStays | src/session.rs:96-128 | the same after a hit |
| Lru.BiggerCacheHoldsMore | src/session.rs:96-128 | what a cache holds is a subsequence, by recency, of what a cache one larger holds |
| ShapeCache.ShapeCache.Get | src/session.rs:96-103 | the map and clock answer as the ideal list and move the key to its front |
| ShapeCache.ShapeCache.Insert | src/session.rs:104-117 | insertion with eviction is that of the ideal list |
| ShapeCache.ShapeCache.EvictColdest | src/session.rs:119-129 | the entry dropped is the end of the list, in whatever order the map is walked |
| ShapeCache.ShapeCache.Clear | src/session.rs:130-133 | nothing is left |
| ShapeCache.ColdestIsLast | src/session.rs:119-129 | the lowest tick belongs to the least recently used entry |
| Shapes.SharedShapes.Get | src/session.rs:176-181 | a disabled store answers nothing and changes nothing |
| Shapes.SharedShapes.Insert | src/session.rs:183-188 | a disabled store takes nothing |
| Shapes.SessionShapes.CachedShape | src/session.rs:326-331 | the session's own answer wins over the shared one |
| Shapes.SessionShapes.CacheShape | src/session.rs:341-346 | a shape always goes to the session's cache, and to the shared one only if it is shareable |
| Shapes.SessionShapes.ForgetShapes | src/session.rs:354-357 | the session's cache and the shared one are empty |
| Shapes.AnswersHaveSource | src/session.rs:326-357 | over any interleaving of sessions, an answer was stored by that session since it last forgot, or is a shareable one stored since the shared store was last cleared |
| Shapes.PrivateStaysPrivate | src/session.rs:341-346 | a shape only ever stored as private answers no other session |
| Shapes.OwnIsRun | src/session.rs:326-357 | a session's cache is what its own operations alone make of an ideal list, whatever other sessions do |
| Shapes.StoreIsRun | src/session.rs:160-192 | the shared store is what the lookups that reach it, the shareable shapes and the clearings make of an ideal list of 4096 |
| Shapes.SizesKept | src/session.rs:104-117 | no session remembers more than 512 shapes, nor the process more than 4096 |
| Shapes.SourceAnswers | src/session.rs:326-346 | a session answers with the shape it stored last until it forgets or has used as many other keys as its cache has places |
| Shapes.ForgottenStaysForgotten | src/session.rs:354-357 | whatever a session is answered after it forgot was stored after it forgot |
| Shapes.StaleExactly | src/session.rs:354-357 | after any session forgot, a session is still answered with a shape stored before exactly if it stored it itself and has neither replaced nor forgotten it, short of evicting it |
| Shapes.DisabledStaysEmpty | src/session.rs:176-192 | a disabled store stays empty over every run |
| Shapes.StaleShapeExample | src/session.rs:354-357 | a run in which another session still answers with a forgotten shape |
| Transactions.StepBalanced | src/session.rs:278-310 | every operation keeps the ledger balanced, whatever the Data API replies |
| Transactions.EveryRunBalances | src/session.rs:255-310 | over every run, a transaction opened is asked to end once, unless it is the one in the slot; nothing else is asked to end; failed implies that one is open |
| Transactions.DisconnectEndsAll | src/session.rs:388-410 | once the client is gone every transaction opened was asked to end exactly once |
| Transactions.OutsideRuntimeLeavesOpen | src/session.rs:388-410 | over every run, after the client is gone without a runtime every transaction was asked to end once exactly if none was in the slot, and one in the slot was not asked |
| Transactions.FailedNeverCommits | src/handlers.rs:381-406 | a transaction marked failed is never sent a commit in any later run |
| Transactions.CommitExactly | src/handlers.rs:381-406 | over every run, COMMIT of an open transaction sends one request for it: a commit exactly if no statement since BEGIN marked the session failed, and else a rollback |
| Transactions.EndsHaveCauses | src/session.rs:298-316 | over every run, a transaction is sent a commit exactly if the client's COMMIT came while it was open and not failed, and a rollback exactly for ROLLBACK, a failed COMMIT, a client that goes away, or a probe's own transaction |
| Transactions.DisconnectRollsBack | src/session.rs:388-410 | a client that goes away has its open transaction rolled back if there is a runtime, and nothing else is sent |
| CommitRuns.CommitOverRuns | src/handlers.rs:185-406 | over every run of portal commands, simple statements and other operations, COMMIT sends and reports a commit exactly if no statement run since BEGIN ended in an error from the Data API, and else sends and reports a rollback |
| CommitRuns.CommitBesideServer | src/handlers.rs:185-406 | over the same runs every call since BEGIN is in its transaction; and if the replies are those of the calls at the server, COMMIT sends a commit for an aborted transaction exactly if a call that decides for no run failed there with no rollback to a savepoint served since and every deciding call succeeded, and a rollback for a live one exactly if a deciding call did not and all that failed there was followed by such a rollback |
| CommitRuns.RunInside | src/session.rs:262-283 | while a transaction is in the slot, the log grows by statements in it and nothing else |
| CommitRuns.FailsByCall | src/handlers.rs:139-230 | a run ends in such an error exactly if it makes calls and the one that decides was answered with an error |
| CommitRuns.FailsByPlace | src/handlers.rs:185-230 | some run failed exactly if a call in the log that decides was answered with an error |
| Recovery.AbortedExactly | src/handlers.rs:381-406 | the server's transaction is aborted exactly if a statement failed there and no rollback to a savepoint was served since, whatever requests and replies were lost |
| Recovery.CommitsAborted | src/session.rs:273-283 | COMMIT sends a commit for a transaction the server aborted exactly if a statement that marks nothing failed there with no rollback to a savepoint served since, and every statement that can mark was reported to succeed |
| Recovery.RollsBackLive | src/handlers.rs:381-406 | COMMIT sends a rollback for a transaction that is not aborted exactly if a statement that can mark was not reported to succeed and all that failed at the server has a later rollback to a savepoint that was served |
| Recovery.RefusedProbeExample | src/probe.rs:171-184 | any statement of the proxy's own that the server refuses makes COMMIT send a commit for an aborted transaction |
| Recovery.UnreturnableWriteExample | src/handlers.rs:199-229 | a write that the server makes and the Data API will not return makes COMMIT send a rollback for a transaction in which nothing failed |
| Recovery.RecoveredYetRolledBack | src/handlers.rs:381-406 | a run in which the client recovered to a savepoint, the server could commit, and COMMIT sends a rollback |
| Transactions.Session.MarkFailed | src/session.rs:255-260 | only an open transaction is marked |
| Transactions.Session.BeginTransaction | src/session.rs:287-296 | a second BEGIN sends nothing; a failed one leaves the slot empty |
| Transactions.Session.CommitTransaction | src/session.rs:299-306 | the slot is empty whatever the reply, and one commit was sent if it was not |
| Transactions.Session.RollbackTransaction | src/session.rs:309-316 | the slot is empty whatever the reply, and one rollback was sent if it was not |
| Transactions.Session.RunTransactionControl | src/handlers.rs:381-406 | a COMMIT in a failed transaction sends a rollback and is reported as one; an error of the one call made is reported |
| Transactions.Session.Drop | src/session.rs:388-410 | an open transaction is sent a rollback if there is a runtime, and nothing else is sent |
| HeldTags.StepSound | src/session.rs:362-386 | every entry keeps its object alive at the address it is filed under |
| HeldTags.HoldPrunes | src/session.rs:366-379 | after a tag is held, no more are waiting than there are live portals |
| HeldTags.TakeReturnsOwed | src/session.rs:366-385 | over every run with reused addresses, a portal takes exactly the last tag held for that same portal, and takes it once |
| HeldTags.AddressReused | src/session.rs:362-365 | the address of a closed portal is free exactly if no tag is waiting under it |
| HeldTags.PendingTags.HoldTag | src/session.rs:366-379 | entries of dead portals go, and the portal's own is replaced |
| HeldTags.PendingTags.TakeTag | src/session.rs:382-385 | the entry under the portal's address is returned and removed |
| Fallback.NarrowRetryKeepsColumns | src/types.rs:132-149 | the narrow retry keeps every column's name, place and advertised type |
| Fallback.AttemptDecides | src/handlers.rs:185-230 | the reply is an error exactly if the deciding call, the statement itself or the cast wrap if it came to that, was answered with one; the error is the statement's own, and a success is the deciding call's answer |
| Retries.RetriedExactly | src/handlers.rs:185-230 | a statement goes out again exactly if it only reads, opens with one of four words, and its first reply is an error of one of two kinds, by code and message; and then as the zero-row wrap |
| Retries.ScopeExactly | src/handlers.rs:745-755 | which of the two kinds also gives up dates and timestamps |
| Retries.RetryExactly | src/handlers.rs:345-374 | there is a retry exactly if the shape query answered with rows whose columns have distinct names and one needs a cast |
| Retries.RetryText | src/handlers.rs:352-378 | it selects every column by its quoted name, with its cast under that name, from the statement |
| Fallback.RetryLexes | src/handlers.rs:352-378 | the retry lexes as the quoted names with their casts around the statement's own spans |
| Fallback.ShapeWritesNothing | src/handlers.rs:336-344 | the zero-row wrap holds a write keyword in code exactly if the statement does |
| Fallback.CastWritesNothing | src/handlers.rs:375-378 | and so does the cast wrap, whatever the columns are called |
| Fallback.NothingElseWrites | src/handlers.rs:185-230 | if any text sent holds a write keyword in code, it is the statement and the only one sent |
| Fallback.SelectList | src/handlers.rs:352-374 | the loop lists every column, or gives up exactly if a name is missing, empty or repeated or nothing needs a cast |
| Fallback.CastFallbackSql | src/handlers.rs:317-379 | a statement that may not be retried sends nothing; any other sends one shape query, with the statement's parameters |
| Fallback.ExecuteWithFallback | src/handlers.rs:185-230 | the calls made, each with the statement's parameters and in its transaction, the reply, and that the transaction is marked failed exactly when an error is reported |
| Portals.DescribeThenExecute | src/handlers.rs:590-742 | over any run, if a portal is described and then executed, both with success, the calls in the log made on its behalf are those of one run of its statement, and Execute answers with the reply of the Data API to the call of that run that decides, whole |
| Portals.WriteGoesOutOnce | src/handlers.rs:590-742 | so a statement that writes is in the log exactly once, with its own text, parameters and transaction |
| Portals.TraceIsLog | src/handlers.rs:590-742 | what a run adds to the log is every call once, in order, each put down to the command it was made in |
| Portals.RanMakes | src/handlers.rs:139-183 | a run of a statement adds to the log none of the calls if it is a hazard, one at most for transaction control, and else those of the fallback |
| Portals.ExecuteOnly | src/handlers.rs:645-677 | for a portal executed without Describe the calls in the log are those of one run of its statement, whether it succeeds or not, and the answer is told by the reply to the call that decides |
| Portals.DescribeAlone | src/handlers.rs:590-642 | Describe of transaction control changes nothing; of anything else it adds the calls of one run to the log |
| Portals.RanAnswers | src/handlers.rs:139-183 | rows or a count are the reply of the Data API at the deciding call's place in the log, an error is the first reply's or the encoder's, for transaction control the tag or the error of its one call |
| Portals.OneAnswer | src/handlers.rs:139-183 | and no other answer fits |
| Portals.DescribeAnswers | src/handlers.rs:590-642 | Describe answers with the rows of its run, with nothing for a count or transaction control, and with the error |
| Portals.SecondDescribe | src/handlers.rs:615-638 | a second Describe makes the calls of a second run, and any at all exactly if the statement is neither transaction control nor a hazard |
| Portals.SecondExecute | src/handlers.rs:716-742 | a second Execute makes the calls of a second run exactly if the first did not answer with rows |
| Portals.SecondExecuteAfterDescribe | src/handlers.rs:590-742 | and so it does after a Describe, the held tag being used up |
| Portals.QuietRun | src/handlers.rs:590-742 | what happens to other portals changes nothing for this one, and makes no call on its behalf |
| Portals.ProtocolBalanced | src/handlers.rs:139-183 | whatever the client does with its portals the transaction ledger stays balanced |
| KeyedPortals.AddressesDoNotMatter | src/session.rs:359-386 | over every run with portals bound and closed and addresses reused, the client is answered, and the Data API called, as if tags were filed by portal |
| KeyedPortals.NewConnection | src/handlers.rs:590-742 | in particular over every run of a new connection |
| Portals.Handler.RunStatement | src/handlers.rs:139-183 | transaction control goes to the session, a hazard is refused unsent, anything else goes through the fallback; the answer is told by the replies in the log; and shapes are forgotten exactly after a schema change that went through |
| Portals.ForgottenExactly | src/handlers.rs:156-165 | shapes are forgotten exactly when a statement that opens with one of five words was answered with success |
| Portals.Handler.DoDescribePortal | src/handlers.rs:590-642 | the result is parked or held, and transaction control is left alone |
| Portals.Handler.OnExecute | src/handlers.rs:716-742 | a held tag is used up, parked rows are replayed, and only otherwise is the statement run |
| ServerTx.CleanupRestores | src/probe.rs:185-205 | a savepoint, any prepares and queries with any outcome, and a cleanup that succeeds leave data, savepoints and the aborted flag as they were |
| ServerTx.RollbackRestoresData | src/probe.rs:185-205 | the rollback alone brings the data back, with only the probe's savepoint left and no prepared name lost |
| ServerTx.FailedSavepoint | src/probe.rs:170-184 | when the savepoint is not reported set, nothing changed exactly if the transaction was aborted already or the request never arrived |
| Probe.ReturningFields | src/probe.rs:323-362 | every result column gets its own type; its name is read off the clause, each star expanded by the answer to its own request for the table the statement names, if every star was had and there are as many names as columns; otherwise all names are positional |
| Probe.ProbeInner | src/probe.rs:207-246 | what is sent, in order: PREPARE, then the metadata query, then for a read with columns the shape query with the types found; no savepoint and no other transaction is touched; and the shape returned is made of those answers |
| Probe.EndProbe | src/probe.rs:185-202 | after the rollback was reported done the data is back and the transaction is as it was exactly if the release was served; otherwise the probe's savepoint is still there |
| Probe.RunProbe | src/probe.rs:156-205 | the shape is made of the server's answers to the probe's own steps; in the caller's transaction, exactly what is left there, however the savepoint, the rollback and the release each end; in its own, a rollback request on every path after it opens; shareable exactly without a caller transaction |
| Probe.ShapeQueryStandsAlone | src/probe.rs:138-152 | one call is enough exactly for a query without placeholders that writes nothing |
| Probe.AloneExactly | src/probe.rs:138-152 | the same by the placeholders, the write check and four words |
| Probe.MetadataExactly | src/probe.rs:248-262 | the text the metadata are asked with |
| Probe.ExpandExactly | src/probe.rs:362-390 | what each entry of a RETURNING list adds to the names |
| Probe.DescribeStatement | src/probe.rs:74-100 | a cached shape costs no request; a new one is made of the server's answers and shared exactly if the caller had no transaction; a query that stands alone is one request outside any transaction |

## Left out

- `find_hazard`: it is a heuristic on text; the model takes its verdict as a parameter of the handler.
- `returning_items`, `returning_offset` and `split_select_list`: the probe takes the parsed RETURNING list as a parameter.
- `describe_cursor` beyond the statement it sends, notices and `do_describe_statement`: shallow, or dependent on server behaviour that is not in the repository.
- Floats, dates, times, timestamps, `uuid` and the other scalar codecs: their text forms come from libraries.
- Retries while a cluster resumes, time-outs and the mapping of SDK exceptions: an API call is one entry in the log, with whatever reply.
- Interleaving within one operation of a session: operations are whole, as the locks and the one-message-at-a-time protocol make them.
- pgwire's portal store and message loop: only that a started portal replays its rows and is not given to `do_query`.
- `adopt_transaction`: only the tests use it.
- The 64-bit wrap-around of the cache's clock; `usize` is taken to have 64 bits.
- A cache limit of 0, which `Lru.LimitKept` speaks of, is passed nowhere: the two limits are constants.
- SqlLexer.Scan: specifies the code's own lexer; besides the backslash of `SqlQuotes.StandardExactly`, a `$` inside an identifier may open a quote, unlike in PostgreSQL.
- SqlBinding.PreparePortal: what the probe answers, the table of type names and the conversion of one value are parameters; the probe itself is `Probe.DescribeStatement`.
- NumericWire.BinaryNumericToText: not for a negative digit count, which overflows or indexes out of range in the source (an unchecked build reports one below -4 as too short), nor for a complete value with a negative scale, on which its loop does not end.
- ArrayWire.BinaryArrayToText: not for a one-dimensional header of under 16 bytes or with a negative length, on which the source panics.
- ArrayLiteral.ArrayToText: for a list of elements already rendered as text; nested array values are not modelled.
- Recovery.CommitsAborted: the parsing of a statement's text into savepoint, rollback and query is the caller's.
- Shapes.StaleExactly: assumes that the session has used fewer other keys than its cache holds since it stored the shape; after that the least recently used entry goes.
- Probe.RunProbe: the session's failed flag is not part of the probe's state, because the probe never touches it; the metadata row and the column list are read by parameters of the model.
- Probe.ReturningFields: the parsed RETURNING list is a parameter.
- Portals.Handler.DoDescribePortal: what `prepare_portal` returns is a parameter here, and the calls of its probe are operations of their own beside the command; its own contract is `SqlBinding.PreparePortal`.
- Portals.Handler.OnExecute: what `prepare_portal` returns is a parameter here too, and the check that the client is ready for a query, which leaves the held tag used up, is not modelled.
- SqlBinding.NullsCommute: for type names that hold no quote, as `ProbeWrap.ShapeQueryLexes` and `ProbeWrap.NoRowsExactly`; those with quoted names are in `SqlNulls.NullsSplice`, `ProbeWrap.ShapeQuerySplices` and `ProbeWrap.NoRowsNamed`.
- ProbeWrites.ShapeQueryWritesExactly: for type names that hold no quote, and not for a placeholder directly followed by an identifier byte, for which `ProbeWrites.ShapeQueryByStretches` has the condition.
